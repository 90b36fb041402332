/** The whole of `process_request` after the model call: parse the text,
    resolve every item name in order against the store, and wrap the outcome
    in the success or error envelope. */
module Pipeline {
  import opened Wrappers
  import opened Text
  import opened Parser
  import opened Inventory
  import opened Resolver

  /** The entries resolved so far and the number of queries issued. */
  datatype Batch = Batch(items: seq<Item>, issued: nat)

  /** The response body: `{"status": "success", "task_name", "items"}` or
      `{"status": "error", "message"}`. */
  datatype Response = Ok(taskName: string, items: seq<Item>) | Error(message: string)

  /** `str(e)` of the exception that ends the request: the store's own
      message, the quoted key of a `KeyError`, or the text of the
      `IndexError` raised by `words[0]`. */
  function Message(f: Fault): string {
    match f
    case Unavailable(m) => m
    case MissingColumn(c) => "'" + c + "'"
    case NoWords => "list index out of range"
  }

  /** Resolves the names in order; the first fault ends the batch. */
  function ResolveAll(v: Version, store: Store, issued: nat, names: seq<string>): (r: Result<Batch, Fault>)
    ensures r.Success? ==> |r.value.items| == |names|
    ensures r.Success? ==> forall k :: 0 <= k < |names| ==> r.value.items[k].name == names[k]
    ensures r.Success? ==> issued + |names| <= r.value.issued
    ensures r.Success? && v.Legacy? ==> r.value.issued == issued + |names|
    ensures r.Failure? ==> |names| > 0
    decreases |names|
  {
    if |names| == 0 then Success(Batch([], issued))
    else
      match Resolve(v, store, issued, names[0])
      case Failure(f) => Failure(f)
      case Success(Step(it, n)) =>
        match ResolveAll(v, store, n, names[1..])
        case Failure(f) => Failure(f)
        case Success(Batch(rest, m)) => Success(Batch([it] + rest, m))
  }

  /** The outcome of resolving one name on its own, with the counter at 0. */
  function Alone(v: Version, store: Store, name: string): Result<Step, Fault> {
    Resolve(v, store, 0, name)
  }

  /** On a healthy store the batch is the names resolved one by one: it
      succeeds exactly when every name resolves on its own, and then the
      k-th entry is the entry of `names[k]` resolved on its own. */
  lemma ResolveAllEntries(v: Version, store: Store, issued: nat, names: seq<string>)
    requires store.outageAfter.None?
    ensures var r := ResolveAll(v, store, issued, names);
      r.Success? <==> forall k :: 0 <= k < |names| ==> Alone(v, store, names[k]).Success?
    ensures var r := ResolveAll(v, store, issued, names);
      r.Success? ==> forall k :: 0 <= k < |names| ==> r.value.items[k] == Alone(v, store, names[k]).value.item
  {
    ResolveAllSucceeds(v, store, issued, names);
    ResolveAllItems(v, store, issued, names);
  }

  /** The success half of `ResolveAllEntries`. */
  lemma {:induction false} ResolveAllSucceeds(v: Version, store: Store, issued: nat, names: seq<string>)
    requires store.outageAfter.None?
    ensures ResolveAll(v, store, issued, names).Success?
            <==> forall k :: 0 <= k < |names| ==> Alone(v, store, names[k]).Success?
    decreases |names|
  {
    if |names| > 0 {
      var tail := names[1..];
      ResolveIndependent(v, store, issued, names[0]);
      var first := Resolve(v, store, issued, names[0]);
      if first.Success? {
        ResolveAllSucceeds(v, store, first.value.issued, tail);
        ResolveAllCons(v, store, issued, names);
        assert forall k :: 1 <= k < |names| ==> names[k] == tail[k - 1];
      }
    }
  }

  /** The entry half of `ResolveAllEntries`. */
  lemma {:induction false} ResolveAllItems(v: Version, store: Store, issued: nat, names: seq<string>)
    requires store.outageAfter.None?
    ensures var r := ResolveAll(v, store, issued, names);
      r.Success? ==> forall k :: 0 <= k < |names| ==>
        Alone(v, store, names[k]).Success? && r.value.items[k] == Alone(v, store, names[k]).value.item
    decreases |names|
  {
    if |names| > 0 {
      var tail := names[1..];
      ResolveIndependent(v, store, issued, names[0]);
      var first := Resolve(v, store, issued, names[0]);
      if first.Success? {
        ResolveAllItems(v, store, first.value.issued, tail);
        ResolveAllCons(v, store, issued, names);
        assert forall k :: 1 <= k < |names| ==> names[k] == tail[k - 1];
      }
    }
  }

  /** One step of the batch: after a successful first name, the batch is
      that entry followed by the rest resolved from the next counter. */
  lemma ResolveAllCons(v: Version, store: Store, issued: nat, names: seq<string>)
    requires |names| > 0 && Resolve(v, store, issued, names[0]).Success?
    ensures var s := Resolve(v, store, issued, names[0]).value;
      var rest := ResolveAll(v, store, s.issued, names[1..]);
      ResolveAll(v, store, issued, names)
        == if rest.Success? then Success(Batch([s.item] + rest.value.items, rest.value.issued))
           else rest
  {
  }

  /** A failing batch on a healthy store carries the fault of the first
      name that fails on its own; every name before it resolves. */
  lemma {:induction false} ResolveAllFirstFault(v: Version, store: Store, issued: nat, names: seq<string>)
    requires store.outageAfter.None?
    ensures var r := ResolveAll(v, store, issued, names);
      r.Failure? ==> exists k :: 0 <= k < |names| && Alone(v, store, names[k]) == Failure(r.error)
                                 && forall j :: 0 <= j < k ==> Alone(v, store, names[j]).Success?
    decreases |names|
  {
    if |names| > 0 {
      var tail := names[1..];
      ResolveIndependent(v, store, issued, names[0]);
      var first := Resolve(v, store, issued, names[0]);
      if first.Failure? {
        assert Alone(v, store, names[0]) == Failure(first.error);
      } else {
        ResolveAllFirstFault(v, store, first.value.issued, tail);
        ResolveAllCons(v, store, issued, names);
        var rest := ResolveAll(v, store, first.value.issued, tail);
        if rest.Failure? {
          var k :| 0 <= k < |tail| && Alone(v, store, tail[k]) == Failure(rest.error)
                   && forall j :: 0 <= j < k ==> Alone(v, store, tail[j]).Success?;
          assert names[k + 1] == tail[k];
          assert forall j :: 1 <= j < k + 1 ==> names[j] == tail[j - 1];
        }
      }
    }
  }

  /** `process_request` from the model's text on. */
  function Process(v: Version, text: string, request: string, store: Store): (r: Response)
    ensures r.Ok? ==> r.taskName == Parse(v, text, request).taskName
    ensures r.Ok? ==> |r.items| == |Parse(v, text, request).itemNames|
    ensures r.Ok? ==> forall k :: 0 <= k < |r.items| ==> r.items[k].name == Parse(v, text, request).itemNames[k]
  {
    var parsed := Parse(v, text, request);
    match ResolveAll(v, store, 0, parsed.itemNames)
    case Failure(f) => Error(Message(f))
    case Success(b) => Ok(parsed.taskName, b.items)
  }

  /** The number of queries the healthy run of the batch issues before it
      ends, by success or by its first fault. */
  function Spent(v: Version, store: Store, issued: nat, names: seq<string>): (n: nat)
    ensures |names| > 0 ==> n >= 1
    decreases |names|
  {
    if |names| == 0 then 0
    else
      var q := Queries(v, store.rows, names[0]);
      match Resolve(v, Healthy(store), issued, names[0])
      case Failure(_) => q
      case Success(s) => q + Spent(v, store, s.issued, names[1..])
  }

  /** All or nothing per batch: the outage surfaces as `Unavailable` exactly
      when one of the queries the healthy run issues is numbered at or past
      it; otherwise the batch is the healthy run's. */
  lemma {:induction false} ResolveAllOutage(v: Version, store: Store, issued: nat, names: seq<string>)
    ensures ResolveAll(v, store, issued, names)
      == if |names| > 0 && store.outageAfter.Some? && issued + Spent(v, store, issued, names) > store.outageAfter.value
         then Failure(Unavailable(store.outage))
         else ResolveAll(v, Healthy(store), issued, names)
    decreases |names|
  {
    if |names| > 0 {
      ResolveOutage(v, store, issued, names[0]);
      match Resolve(v, Healthy(store), issued, names[0])
      case Failure(_) =>
      case Success(s) =>
        ResolveAllOutage(v, store, s.issued, names[1..]);
        assert Healthy(Healthy(store)) == Healthy(store);
    }
  }

  /** An outage either turns the response into the error envelope carrying
      the store's message, or leaves the response exactly as on a healthy
      store. */
  lemma ProcessOutage(v: Version, text: string, request: string, store: Store)
    ensures var names := Parse(v, text, request).itemNames;
      Process(v, text, request, store)
        == if |names| > 0 && store.outageAfter.Some? && Spent(v, store, 0, names) > store.outageAfter.value
           then Error(store.outage)
           else Process(v, text, request, Healthy(store))
  {
    ResolveAllOutage(v, store, 0, Parse(v, text, request).itemNames);
  }

  /** main.py on a healthy store resolves every name. */
  lemma {:induction false} LegacyResolvesAll(store: Store, issued: nat, names: seq<string>)
    requires store.outageAfter.None?
    ensures ResolveAll(Legacy, store, issued, names).Success?
    decreases |names|
  {
    if |names| > 0 {
      var s := Resolve(Legacy, store, issued, names[0]);
      LegacyResolvesAll(store, s.value.issued, names[1..]);
    }
  }

  /** main.py on a healthy store always answers with the success envelope. */
  lemma LegacyAlwaysOk(text: string, request: string, store: Store)
    requires store.outageAfter.None?
    ensures Process(Legacy, text, request, store).Ok?
  {
    LegacyResolvesAll(store, 0, Parse(Legacy, text, request).itemNames);
  }

  /** index.py on a healthy store whose rows all carry both columns resolves
      every name that has a word. */
  lemma {:induction false} CurrentResolvesAll(store: Store, issued: nat, names: seq<string>)
    requires store.outageAfter.None?
    requires forall row :: row in store.rows ==> Complete(row)
    requires forall n :: n in names ==> |Words(Lower(n))| >= 1
    ensures ResolveAll(Current, store, issued, names).Success?
    decreases |names|
  {
    if |names| > 0 {
      ResolveOutage(Current, store, issued, names[0]);
      assert Healthy(store) == store;
      var s := Resolve(Current, store, issued, names[0]);
      CurrentResolvesAll(store, s.value.issued, names[1..]);
    }
  }

  /** index.py on a healthy store whose rows all carry both columns always
      answers with the success envelope: every parsed name has a word, so
      `words[0]` is never taken of an empty list. */
  lemma CurrentOkWhenComplete(text: string, request: string, store: Store)
    requires store.outageAfter.None?
    requires forall row :: row in store.rows ==> Complete(row)
    ensures Process(Current, text, request, store).Ok?
  {
    var parsed := Parse(Current, text, request);
    ItemNamesHaveWords(Current, Prepared(Current, text));
    CurrentResolvesAll(store, 0, parsed.itemNames);
  }

  /** On a healthy store the response is the parsed names resolved one by
      one: the success envelope exactly when every name resolves on its
      own, with the k-th entry being that of the k-th parsed name, and
      otherwise the error envelope with `str(e)` of the first name's fault. */
  lemma ProcessHealthy(v: Version, text: string, request: string, store: Store)
    requires store.outageAfter.None?
    ensures var names := Parse(v, text, request).itemNames; var r := Process(v, text, request, store);
      r.Ok? <==> forall k :: 0 <= k < |names| ==> Alone(v, store, names[k]).Success?
    ensures var names := Parse(v, text, request).itemNames; var r := Process(v, text, request, store);
      r.Ok? ==> |r.items| == |names| && forall k :: 0 <= k < |names| ==> r.items[k] == Alone(v, store, names[k]).value.item
    ensures var names := Parse(v, text, request).itemNames; var r := Process(v, text, request, store);
      r.Error? ==> exists k :: 0 <= k < |names| && Alone(v, store, names[k]).Failure?
                               && r.message == Message(Alone(v, store, names[k]).error)
                               && forall j :: 0 <= j < k ==> Alone(v, store, names[j]).Success?
  {
    var names := Parse(v, text, request).itemNames;
    ResolveAllEntries(v, store, 0, names);
    ResolveAllFirstFault(v, store, 0, names);
    match ResolveAll(v, store, 0, names)
    case Success(_) =>
    case Failure(f) =>
      var k :| 0 <= k < |names| && Alone(v, store, names[k]) == Failure(f)
               && forall j :: 0 <= j < k ==> Alone(v, store, names[j]).Success?;
      assert Process(v, text, request, store).message == Message(Alone(v, store, names[k]).error);
  }

  /** index.py's `KeyError`: when the row that settles the first name
      lacks `quantity` (or has it but lacks `units`), the batch fails with
      that missing key before any later name is queried. */
  lemma MissingColumnFault(store: Store, issued: nat, names: seq<string>, row: Row)
    requires store.outageAfter.None?
    requires |names| > 0 && HitRow(store.rows, Tiers(names[0])) == Some(row) && !Complete(row)
    ensures ResolveAll(Current, store, issued, names)
              == Failure(MissingColumn(if row.quantity.None? then "quantity" else "units"))
  {
    ProbeReference(store, issued, Tiers(names[0]));
  }

  /** `str(e)` of a `KeyError` is the missing key in quotes. */
  lemma KeyErrorText(c: string)
    requires c == "quantity" || c == "units"
    ensures Message(MissingColumn(c)) == if c == "quantity" then "'quantity'" else "'units'"
  {
  }

  /** The response is then the error envelope whose message is the quoted
      missing key. */
  lemma MissingColumnMessage(text: string, request: string, store: Store, row: Row)
    requires store.outageAfter.None?
    requires var names := Parse(Current, text, request).itemNames;
      |names| > 0 && HitRow(store.rows, Tiers(names[0])) == Some(row) && !Complete(row)
    ensures Process(Current, text, request, store)
              == Error(if row.quantity.None? then "'quantity'" else "'units'")
  {
    var names := Parse(Current, text, request).itemNames;
    var c := if row.quantity.None? then "quantity" else "units";
    MissingColumnFault(store, 0, names, row);
    KeyErrorText(c);
  }
}
