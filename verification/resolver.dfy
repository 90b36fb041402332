/** The inventory resolver of `process_request`: maps one parsed item name
    to one `{name, quantity, units}` entry. index.py tries progressively
    looser queries (the whole name, then each word, or the first three
    letters of a single word); main.py tries the whole name only. */
module Resolver {
  import opened Wrappers
  import opened Text
  import opened Parser
  import opened Inventory

  /** A resolved entry and the number of queries issued so far in the request. */
  datatype Step = Step(item: Item, issued: nat)

  /** The first row of the first query that returned rows, if any, and the
      number of queries issued so far. */
  datatype Probed = Probed(hit: Option<Row>, issued: nat)

  const PrefixLength: nat := 3
  const Unknown: Value := Str("Unknown")

  /** index.py reads `response.data[0]['quantity']` and then `['units']`:
      a missing key raises `KeyError`. */
  function TakeColumns(name: string, row: Row): (r: Result<Item, Fault>)
    ensures r.Success? <==> Complete(row)
    ensures r.Success? ==>
              r.value.name == name && Some(r.value.quantity) == row.quantity && Some(r.value.units) == row.units
  {
    match row.quantity
    case None => Failure(MissingColumn("quantity"))
    case Some(q) =>
      match row.units
      case None => Failure(MissingColumn("units"))
      case Some(u) => Success(Item(name, q, u))
  }

  /** main.py reads `response.data[0].get(column, "Unknown")`. */
  function GetColumns(name: string, row: Row): (it: Item)
    ensures it.name == name
    ensures row.quantity.Some? ==> it.quantity == row.quantity.value
    ensures row.quantity.None? ==> it.quantity == Unknown
    ensures row.units.Some? ==> it.units == row.units.value
    ensures row.units.None? ==> it.units == Unknown
  {
    Item(name,
      match row.quantity case Some(q) => q case None => Unknown,
      match row.units case Some(u) => u case None => Unknown)
  }

  /** The patterns index.py queries for `name`, in tier order: the whole
      lower-cased name; then every word when there are several, or the
      first three letters of a single word of length at least three. */
  function Tiers(name: string): (pats: seq<string>)
    ensures |pats| >= 1 && pats[0] == Lower(name)
    ensures |pats| <= 1 + |Words(Lower(name))|
  {
    var lowered := Lower(name);
    var words := Words(lowered);
    [lowered] +
      if |words| > 1 then words
      else if |words| == 1 && |words[0]| >= PrefixLength then [words[0][..PrefixLength]]
      else []
  }

  /** Queries the patterns in order and stops at the first one that returns
      rows. */
  function Probe(store: Store, issued: nat, pats: seq<string>): (r: Result<Probed, Fault>)
    ensures r.Success? ==> issued <= r.value.issued <= issued + |pats|
    ensures r.Success? && r.value.hit.None? ==> r.value.issued == issued + |pats|
    ensures r.Success? && r.value.hit.Some? ==> issued < r.value.issued
    ensures r.Failure? ==> r.error == Unavailable(store.outage)
    decreases |pats|
  {
    if |pats| == 0 then Success(Probed(None, issued))
    else
      match Ask(store, issued, pats[0])
      case Failure(f) => Failure(f)
      case Success(rows) =>
        if |rows| > 0 then Success(Probed(Some(rows[0]), issued + 1))
        else Probe(store, issued + 1, pats[1..])
  }

  /** Tiered resolution of one name (index.py). */
  function ResolveTiered(store: Store, issued: nat, name: string): (r: Result<Step, Fault>)
    ensures r.Success? ==> r.value.item.name == name
    ensures r.Success? ==> issued < r.value.issued <= issued + 1 + |Words(Lower(name))|
  {
    match Probe(store, issued, Tiers(name))
    case Failure(f) => Failure(f)
    case Success(Probed(hit, n)) =>
      match hit
      case Some(row) =>
        (match TakeColumns(name, row)
         case Failure(f) => Failure(f)
         case Success(it) => Success(Step(it, n)))
      case None =>
        if |Words(Lower(name))| == 0 then Failure(NoWords)
        else Success(Step(Unmatched(name), n))
  }

  /** Single-tier resolution of one name (main.py). */
  function ResolveSingle(store: Store, issued: nat, name: string): (r: Result<Step, Fault>)
    ensures r.Success? ==> r.value.issued == issued + 1
    ensures r.Success? ==> r.value.item == match FirstMatch(store.rows, Lower(name))
                                           case Some(i) => GetColumns(name, store.rows[i])
                                           case None => Unmatched(name)
    ensures r.Failure? <==> store.outageAfter.Some? && issued >= store.outageAfter.value
  {
    match Ask(store, issued, Lower(name))
    case Failure(f) => Failure(f)
    case Success(rows) =>
      Success(Step(if |rows| > 0 then GetColumns(name, rows[0]) else Unmatched(name), issued + 1))
  }

  /** The resolver of the given version. */
  function Resolve(v: Version, store: Store, issued: nat, name: string): (r: Result<Step, Fault>)
    ensures r.Success? ==> r.value.item.name == name && issued < r.value.issued
    ensures v.Legacy? ==> (r.Failure? <==> !Answers(store, issued))
  {
    match v
    case Current => ResolveTiered(store, issued, name)
    case Legacy => ResolveSingle(store, issued, name)
  }

  /** The index of the first pattern whose query returns rows. */
  function FirstHit(rows: seq<Row>, pats: seq<string>): (r: Option<nat>)
    ensures r.Some? ==> r.value < |pats|
    decreases |pats|
  {
    if |pats| == 0 then None
    else if FirstMatch(rows, pats[0]).Some? then Some(0)
    else match FirstHit(rows, pats[1..])
      case None => None
      case Some(k) => Some(k + 1)
  }

  /** The number of queries a lazy, in-order evaluation of the patterns
      issues on a healthy store: up to and including the first hit. */
  function Cost(rows: seq<Row>, pats: seq<string>): (n: nat)
    ensures n <= |pats|
    ensures |pats| > 0 ==> n >= 1
  {
    match FirstHit(rows, pats)
    case Some(k) => k + 1
    case None => |pats|
  }

  /** The row a lazy, in-order evaluation of the patterns settles on: the
      first row of the first pattern whose query is non-empty. */
  function HitRow(rows: seq<Row>, pats: seq<string>): Option<Row> {
    match FirstHit(rows, pats)
    case Some(k) => if FirstMatch(rows, pats[k]).Some? then Some(rows[FirstMatch(rows, pats[k]).value]) else None
    case None => None
  }

  /** The first hit is the least index whose query returns rows. */
  lemma {:induction false} FirstHitSpec(rows: seq<Row>, pats: seq<string>)
    ensures var r := FirstHit(rows, pats);
      (r.Some? ==> r.value < |pats| && FirstMatch(rows, pats[r.value]).Some?
                   && forall j :: 0 <= j < r.value ==> FirstMatch(rows, pats[j]).None?)
      && (r.None? ==> forall j :: 0 <= j < |pats| ==> FirstMatch(rows, pats[j]).None?)
    decreases |pats|
  {
    if |pats| > 0 && FirstMatch(rows, pats[0]).None? {
      var tail := pats[1..];
      FirstHitSpec(rows, tail);
      forall j | 1 <= j < |pats| ensures pats[j] == tail[j - 1] { }
    }
  }

  /** A hit at `k` with misses before it is the first hit. */
  lemma FirstHitAt(rows: seq<Row>, pats: seq<string>, k: nat)
    requires k < |pats| && FirstMatch(rows, pats[k]).Some?
    requires forall j :: 0 <= j < k ==> FirstMatch(rows, pats[j]).None?
    ensures FirstHit(rows, pats) == Some(k)
  {
    FirstHitSpec(rows, pats);
  }

  /** Probing the tiers is the lazy first-hit evaluation: the store raises
      exactly when a query the healthy evaluation would issue is numbered
      at or past the outage; otherwise the outcome is the first row of the
      first non-empty query, after exactly `Cost` queries. */
  lemma {:induction false} ProbeReference(store: Store, issued: nat, pats: seq<string>)
    ensures var n := Cost(store.rows, pats);
      Probe(store, issued, pats)
        == if n > 0 && store.outageAfter.Some? && issued + n > store.outageAfter.value
           then Failure(Unavailable(store.outage))
           else Success(Probed(HitRow(store.rows, pats), issued + n))
    decreases |pats|
  {
    FirstHitSpec(store.rows, pats);
    if |pats| > 0 && FirstMatch(store.rows, pats[0]).None? {
      var tail := pats[1..];
      ProbeReference(store, issued + 1, tail);
      FirstHitSpec(store.rows, tail);
      match FirstHit(store.rows, tail)
      case None =>
      case Some(k) => assert tail[k] == pats[k + 1];
    }
  }

  /** A store that answers the query numbered `n`. */
  predicate Answers(store: Store, n: nat) {
    store.outageAfter.None? || n < store.outageAfter.value
  }

  /** Tier 1: when the whole lower-cased name matches, the first matching row
      supplies quantity and units and no further query is issued. */
  lemma ExactHit(store: Store, issued: nat, name: string)
    requires FirstMatch(store.rows, Lower(name)).Some? && Answers(store, issued)
    ensures var row := store.rows[FirstMatch(store.rows, Lower(name)).value];
      ResolveTiered(store, issued, name)
        == match TakeColumns(name, row)
           case Success(it) => Success(Step(it, issued + 1))
           case Failure(f) => Failure(f)
  {
    ProbeReference(store, issued, Tiers(name));
    FirstHitAt(store.rows, Tiers(name), 0);
  }

  /** Tier 2: for a name of several words with no whole-name match, the first
      word (in order) whose query returns rows supplies the entry; the words
      after it are never queried. */
  lemma WordHit(store: Store, issued: nat, name: string, k: nat)
    requires |Words(Lower(name))| > 1 && FirstMatch(store.rows, Lower(name)).None?
    requires k < |Words(Lower(name))| && FirstMatch(store.rows, Words(Lower(name))[k]).Some?
    requires forall j :: 0 <= j < k ==> FirstMatch(store.rows, Words(Lower(name))[j]).None?
    requires Answers(store, issued + k + 1)
    ensures var row := store.rows[FirstMatch(store.rows, Words(Lower(name))[k]).value];
      ResolveTiered(store, issued, name)
        == match TakeColumns(name, row)
           case Success(it) => Success(Step(it, issued + k + 2))
           case Failure(f) => Failure(f)
  {
    var words := Words(Lower(name));
    var pats := Tiers(name);
    assert pats == [Lower(name)] + words;
    assert pats[k + 1] == words[k];
    assert forall j :: 0 < j <= k ==> pats[j] == words[j - 1];
    ProbeReference(store, issued, pats);
    FirstHitAt(store.rows, pats, k + 1);
  }

  /** Tier 3: a single word with no whole-name match is retried on its first
      three letters only when it has at least three; a miss there, or a word
      too short to try, gives the null entry. */
  lemma PrefixTier(store: Store, issued: nat, name: string)
    requires |Words(Lower(name))| == 1 && FirstMatch(store.rows, Lower(name)).None?
    requires Answers(store, issued + 1)
    ensures var w := Words(Lower(name))[0];
      |w| < 3 ==> ResolveTiered(store, issued, name) == Success(Step(Unmatched(name), issued + 1))
    ensures var w := Words(Lower(name))[0];
      |w| >= 3 && FirstMatch(store.rows, w[..3]).None? ==>
        ResolveTiered(store, issued, name) == Success(Step(Unmatched(name), issued + 2))
    ensures var w := Words(Lower(name))[0];
      |w| >= 3 && FirstMatch(store.rows, w[..3]).Some? ==>
        ResolveTiered(store, issued, name)
          == match TakeColumns(name, store.rows[FirstMatch(store.rows, w[..3]).value])
             case Success(it) => Success(Step(it, issued + 2))
             case Failure(f) => Failure(f)
  {
    var w := Words(Lower(name))[0];
    var pats := Tiers(name);
    ProbeReference(store, issued, pats);
    FirstHitSpec(store.rows, pats);
    if |w| >= 3 {
      assert pats == [Lower(name), w[..3]];
      if FirstMatch(store.rows, w[..3]).Some? {
        FirstHitAt(store.rows, pats, 1);
      }
    } else {
      assert pats == [Lower(name)];
    }
  }

  /** When no tier's query returns rows the entry is `{name, null, null}`,
      after one query per tier. */
  lemma NoTierHits(store: Store, issued: nat, name: string)
    requires |Words(Lower(name))| >= 1
    requires forall j :: 0 <= j < |Tiers(name)| ==> FirstMatch(store.rows, Tiers(name)[j]).None?
    requires Answers(store, issued + |Tiers(name)| - 1)
    ensures ResolveTiered(store, issued, name) == Success(Step(Unmatched(name), issued + |Tiers(name)|))
  {
    ProbeAllMiss(store, issued, Tiers(name));
  }

  /** When every pattern misses, all of them are queried and nothing is hit. */
  lemma ProbeAllMiss(store: Store, issued: nat, pats: seq<string>)
    requires |pats| > 0 && forall j :: 0 <= j < |pats| ==> FirstMatch(store.rows, pats[j]).None?
    requires Answers(store, issued + |pats| - 1)
    ensures Probe(store, issued, pats) == Success(Probed(None, issued + |pats|))
  {
    ProbeReference(store, issued, pats);
    FirstHitSpec(store.rows, pats);
  }

  /** A name with no words (empty or all whitespace) that matches nothing as
      a whole makes index.py take `words[0]` of an empty list. */
  lemma NoWordsFails(store: Store, issued: nat, name: string)
    requires |Words(Lower(name))| == 0 && FirstMatch(store.rows, Lower(name)).None?
    requires Answers(store, issued)
    ensures ResolveTiered(store, issued, name) == Failure(NoWords)
  {
    ProbeReference(store, issued, Tiers(name));
    FirstHitSpec(store.rows, Tiers(name));
  }

  /** On a healthy store a name resolves to the same outcome whatever the
      query counter stands at: the entry (or the fault) depends on the name
      and the rows only, so every name is resolved independently. */
  lemma ResolveIndependent(v: Version, store: Store, issued: nat, name: string)
    requires store.outageAfter.None?
    ensures Resolve(v, store, issued, name).Success? <==> Resolve(v, store, 0, name).Success?
    ensures Resolve(v, store, issued, name).Success? ==>
              Resolve(v, store, issued, name).value.item == Resolve(v, store, 0, name).value.item
    ensures Resolve(v, store, issued, name).Failure? ==>
              Resolve(v, store, issued, name).error == Resolve(v, store, 0, name).error
  {
    if v.Current? {
      ProbeReference(store, issued, Tiers(name));
      ProbeReference(store, 0, Tiers(name));
    }
  }

  /** The number of queries the resolver of version `v` issues for `name`
      on a healthy store. */
  function Queries(v: Version, rows: seq<Row>, name: string): (n: nat)
    ensures 1 <= n
    ensures v.Current? ==> n <= 1 + |Words(Lower(name))|
    ensures v.Legacy? ==> n == 1
  {
    match v
    case Current => Cost(rows, Tiers(name))
    case Legacy => 1
  }

  /** All or nothing per name: the outage surfaces as `Unavailable` exactly
      when one of the queries the healthy run issues is numbered at or past
      it, and otherwise the result is the healthy run's, after `Queries`
      queries. */
  lemma ResolveOutage(v: Version, store: Store, issued: nat, name: string)
    ensures var healthy := Resolve(v, Healthy(store), issued, name);
      Resolve(v, store, issued, name)
        == if store.outageAfter.Some? && issued + Queries(v, store.rows, name) > store.outageAfter.value
           then Failure(Unavailable(store.outage))
           else healthy
    ensures var healthy := Resolve(v, Healthy(store), issued, name);
      healthy.Success? ==> healthy.value.issued == issued + Queries(v, store.rows, name)
    ensures v.Legacy? ==> Resolve(v, Healthy(store), issued, name).Success?
    ensures v.Current? && (forall row :: row in store.rows ==> Complete(row)) && |Words(Lower(name))| >= 1
            ==> Resolve(v, Healthy(store), issued, name).Success?
  {
    if v.Current? {
      ProbeReference(store, issued, Tiers(name));
      ProbeReference(Healthy(store), issued, Tiers(name));
      FirstHitSpec(store.rows, Tiers(name));
      match FirstHit(store.rows, Tiers(name))
      case None =>
      case Some(k) =>
        var row := store.rows[FirstMatch(store.rows, Tiers(name)[k]).value];
        assert row in store.rows;
    }
  }
}
