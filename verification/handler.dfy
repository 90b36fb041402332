/** The request handler of index.py written the way it runs: one query at a
    time, the `matched` flag, the last `response.data`, and entries appended
    to `items` as they are found. Each method is proved equal to the
    declarative resolver, which shows that the final "no match" test appends
    exactly one null entry whenever no tier appended one. */
module Handler {
  import opened Wrappers
  import opened Text
  import opened Parser
  import opened Inventory
  import opened Resolver
  import opened Pipeline

  /** Appends a batch outcome to the entries collected so far. */
  function Extend(items: seq<Item>, r: Result<Batch, Fault>): (e: Result<Batch, Fault>)
    ensures e.Failure? <==> r.Failure?
    ensures e.Success? ==> e.value.items == items + r.value.items && e.value.issued == r.value.issued
  {
    match r
    case Failure(f) => Failure(f)
    case Success(Batch(rest, m)) => Success(Batch(items + rest, m))
  }

  /** Resolving the rest of the batch after `items` is resolving its first
      name and then the rest after one more entry. */
  lemma ExtendStep(v: Version, store: Store, issued: nat, rest: seq<string>, items: seq<Item>)
    requires |rest| > 0
    ensures Extend(items, ResolveAll(v, store, issued, rest))
      == match Resolve(v, store, issued, rest[0])
         case Failure(f) => Failure(f)
         case Success(s) => Extend(items + [s.item], ResolveAll(v, store, s.issued, rest[1..]))
  {
    match Resolve(v, store, issued, rest[0])
    case Failure(_) =>
    case Success(s) =>
      match ResolveAll(v, store, s.issued, rest[1..])
      case Failure(_) =>
      case Success(b) => assert items + ([s.item] + b.items) == items + [s.item] + b.items;
  }

  /** The handler's state after a tier: the `matched` flag, the last
      `response.data`, the entries so far and the queries issued. */
  datatype Pass = Pass(matched: bool, data: seq<Row>, items: seq<Item>, issued: nat)

  /** A tier run `r` agrees with the declarative probe `p` of its patterns:
      the same fault, or no match with nothing appended and the last data
      empty, or the first row's entry appended and `matched` set. */
  predicate Agrees(name: string, items0: seq<Item>, p: Result<Probed, Fault>, r: Result<Pass, Fault>) {
    match p
    case Failure(f) => r == Failure(f)
    case Success(Probed(None, n)) =>
      r.Success? && !r.value.matched && |r.value.data| == 0 && r.value.items == items0 && r.value.issued == n
    case Success(Probed(Some(row), n)) =>
      match TakeColumns(name, row)
      case Failure(f) => r == Failure(f)
      case Success(it) => r.Success? && r.value.matched && r.value.items == items0 + [it] && r.value.issued == n
  }

  /** Tier 2 of index.py: the words in order, stopping at the first one whose
      query returns rows. */
  method WordTierSteps(store: Store, issued0: nat, name: string, words: seq<string>, items0: seq<Item>)
    returns (r: Result<Pass, Fault>)
    ensures Agrees(name, items0, Probe(store, issued0, words), r)
  {
    var issued := issued0;
    var data: seq<Row> := [];
    var k := 0;
    while k < |words|
      invariant 0 <= k <= |words|
      invariant issued == issued0 + k
      invariant |data| == 0
      invariant Probe(store, issued0, words) == Probe(store, issued, words[k..])
    {
      var asked := Ask(store, issued, words[k]);
      if asked.Failure? {
        return Failure(asked.error);
      }
      data := asked.value;
      issued := issued + 1;
      if |data| > 0 {
        match TakeColumns(name, data[0])
        case Failure(f) => return Failure(f);
        case Success(it) => return Success(Pass(true, data, items0 + [it], issued));
      }
      assert words[k..][1..] == words[k + 1..];
      k := k + 1;
    }
    r := Success(Pass(false, data, items0, issued));
  }

  /** Tier 3 of index.py: the first three letters of a single word, queried
      only when the word has at least three. */
  method PrefixTierSteps(store: Store, issued0: nat, name: string, word: string, items0: seq<Item>)
    returns (r: Result<Pass, Fault>)
    ensures Agrees(name, items0,
                   Probe(store, issued0, if |word| >= PrefixLength then [word[..PrefixLength]] else []), r)
  {
    if |word| < PrefixLength {
      return Success(Pass(false, [], items0, issued0));
    }
    var asked := Ask(store, issued0, word[..PrefixLength]);
    if asked.Failure? {
      return Failure(asked.error);
    }
    var data := asked.value;
    if |data| > 0 {
      match TakeColumns(name, data[0])
      case Failure(f) => return Failure(f);
      case Success(it) => return Success(Pass(true, data, items0 + [it], issued0 + 1));
    }
    r := Success(Pass(false, data, items0, issued0 + 1));
  }

  /** One pass of the `for name in item_names` body of index.py, ending with
      its "no match" test exactly as written: `not matched and not
      response.data`. */
  method ResolveNameSteps(store: Store, issued0: nat, name: string, items0: seq<Item>)
    returns (r: Result<Batch, Fault>)
    ensures r == match ResolveTiered(store, issued0, name)
                 case Failure(f) => Failure(f)
                 case Success(s) => Success(Batch(items0 + [s.item], s.issued))
  {
    var lowered := Lower(name);
    ghost var pats := Tiers(name);

    // Tier 1: the whole name.
    var asked := Ask(store, issued0, lowered);
    if asked.Failure? {
      return Failure(asked.error);
    }
    var data := asked.value;
    if |data| > 0 {
      match TakeColumns(name, data[0])
      case Failure(f) => return Failure(f);
      case Success(it) => return Success(Batch(items0 + [it], issued0 + 1));
    }
    assert Probe(store, issued0, pats) == Probe(store, issued0 + 1, pats[1..]);

    var words := Words(lowered);
    var pass: Result<Pass, Fault>;
    if |words| > 1 {
      assert pats[1..] == words;
      pass := WordTierSteps(store, issued0 + 1, name, words, items0);
    } else if |words| == 0 {
      // `words[0]` of an empty list.
      return Failure(NoWords);
    } else {
      assert pats[1..] == if |words[0]| >= PrefixLength then [words[0][..PrefixLength]] else [];
      pass := PrefixTierSteps(store, issued0 + 1, name, words[0], items0);
    }
    if pass.Failure? {
      return Failure(pass.error);
    }
    var items := pass.value.items;
    if !pass.value.matched && |pass.value.data| == 0 {
      items := items + [Unmatched(name)];
    }
    r := Success(Batch(items, pass.value.issued));
  }

  /** The `for name in item_names` loop of index.py: the first raised fault
      ends the loop, otherwise every name contributes one entry in order. */
  method ResolveItemsSteps(store: Store, names: seq<string>) returns (r: Result<seq<Item>, Fault>)
    ensures r == match ResolveAll(Current, store, 0, names)
                 case Failure(f) => Failure(f)
                 case Success(b) => Success(b.items)
  {
    var items: seq<Item> := [];
    var issued := 0;
    var i := 0;
    assert names[i..] == names;
    match ResolveAll(Current, store, 0, names) {
      case Failure(_) =>
      case Success(b) => assert items + b.items == b.items;
    }
    while i < |names|
      invariant 0 <= i <= |names|
      invariant ResolveAll(Current, store, 0, names) == Extend(items, ResolveAll(Current, store, issued, names[i..]))
    {
      var step := ResolveNameSteps(store, issued, names[i], items);
      ExtendStep(Current, store, issued, names[i..], items);
      if step.Failure? {
        return Failure(step.error);
      }
      assert names[i..][1..] == names[i + 1..];
      items := step.value.items;
      issued := step.value.issued;
      i := i + 1;
    }
    assert items + [] == items;
    r := Success(items);
  }

  /** The `for name in item_names` loop of main.py: one query per name, the
      first returned row read with `"Unknown"` defaults, the null entry when
      nothing matches. */
  method ResolveItemsLegacySteps(store: Store, names: seq<string>) returns (r: Result<seq<Item>, Fault>)
    ensures r == match ResolveAll(Legacy, store, 0, names)
                 case Failure(f) => Failure(f)
                 case Success(b) => Success(b.items)
  {
    var items: seq<Item> := [];
    var issued := 0;
    var i := 0;
    assert names[i..] == names;
    match ResolveAll(Legacy, store, 0, names) {
      case Failure(_) =>
      case Success(b) => assert items + b.items == b.items;
    }
    while i < |names|
      invariant 0 <= i <= |names|
      invariant ResolveAll(Legacy, store, 0, names) == Extend(items, ResolveAll(Legacy, store, issued, names[i..]))
    {
      var name := names[i];
      ExtendStep(Legacy, store, issued, names[i..], items);
      var asked := Ask(store, issued, Lower(name));
      if asked.Failure? {
        return Failure(asked.error);
      }
      var data := asked.value;
      if |data| > 0 {
        items := items + [GetColumns(name, data[0])];
      } else {
        items := items + [Unmatched(name)];
      }
      assert names[i..][1..] == names[i + 1..];
      issued := issued + 1;
      i := i + 1;
    }
    assert items + [] == items;
    r := Success(items);
  }
}
