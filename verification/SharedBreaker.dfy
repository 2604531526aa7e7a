/**
  How one replica reads its siblings' circuit state (internal/circuit/redis_sync.go): the flat
  string fields of the shared hash, the decision to open, and the state-change hook that pushes and
  reads again. Times here are whole seconds.
*/
module SharedBreaker {
  import opened Backends
  import opened Options
  import opened CircuitBreaking

  // ----- Field names -------------------------------------------------------------------------

  /** The last colon among the first n characters. */
  function LastColon(s: string, n: nat): (r: Option<nat>)
    requires n <= |s|
    ensures r.Some? ==> r.value < n && s[r.value] == ':' && forall k :: r.value < k < n ==> s[k] != ':'
    ensures r.None? ==> forall k :: 0 <= k < n ==> s[k] != ':'
  {
    if n == 0 then None else if s[n - 1] == ':' then Some(n - 1) else LastColon(s, n - 1)
  }

  function Split(s: string): (string, string) {
    match LastColon(s, |s|)
    case None => ("", s)
    case Some(i) => (s[..i], s[i + 1..])
  }

  method SplitLastColon(s: string) returns (prefix: string, suffix: string)
    ensures (prefix, suffix) == Split(s)
    ensures ':' !in suffix
    ensures s == prefix + ":" + suffix || (':' !in s && prefix == "" && suffix == s)
  {
    var i := |s|;
    while i > 0
      invariant 0 <= i <= |s| && LastColon(s, |s|) == LastColon(s, i)
      invariant forall k :: i <= k < |s| ==> s[k] != ':'
    {
      i := i - 1;
      if s[i] == ':' { return s[..i], s[i + 1..]; }
    }
    return "", s;
  }

  function Key(id: string, suffix: string): string { id + ":" + suffix }

  /** Replica ids may contain colons (the default is host:pid); the suffix never does. */
  lemma SplitsBack(id: string, suffix: string)
    requires ':' !in suffix
    ensures Split(Key(id, suffix)) == (id, suffix)
  {
    var s := Key(id, suffix);
    assert s[|id|] == ':';
    assert forall k :: |id| < k < |s| ==> s[k] == suffix[k - |id| - 1];
    assert LastColon(s, |s|) == Some(|id|);
    assert s[..|id|] == id && s[|id| + 1..] == suffix;
  }

  // ----- Timestamps --------------------------------------------------------------------------

  const MAX_INT64 := 0x7fff_ffff_ffff_ffff

  predicate AllDigits(s: string) { forall i :: 0 <= i < |s| ==> '0' <= s[i] <= '9' }

  function Value(s: string): nat
    requires AllDigits(s)
  {
    if s == "" then 0 else 10 * Value(s[..|s| - 1]) + (s[|s| - 1] as int - '0' as int)
  }

  /** Base ten, with an optional sign, within 64 bits. */
  function ParseInt(s: string): Option<int> {
    var negative := s != "" && s[0] == '-';
    var digits := if s != "" && (s[0] == '-' || s[0] == '+') then s[1..] else s;
    if digits == "" || !AllDigits(digits) then None
    else
      var v: int := Value(digits);
      if negative then (if v <= MAX_INT64 + 1 then Some(-v) else None)
      else if v <= MAX_INT64 then Some(v) else None
  }

  function Decimal(n: nat): (s: string)
    ensures s != "" && AllDigits(s)
  {
    var last := ['0' + (n % 10) as char];
    if n < 10 then last else Decimal(n / 10) + last
  }

  lemma {:induction false} DecimalValue(n: nat)
    ensures Value(Decimal(n)) == n
  {
    var s, last := Decimal(n), ['0' + (n % 10) as char];
    if n < 10 {
      assert s == last && s[..0] == "";
    } else {
      DecimalValue(n / 10);
      assert s == Decimal(n / 10) + last;
      assert s[..|s| - 1] == Decimal(n / 10);
    }
  }

  lemma ParseDecimal(n: nat)
    requires n <= MAX_INT64
    ensures ParseInt(Decimal(n)) == Some(n)
  {
    DecimalValue(n);
    assert AllDigits(Decimal(n)) && '0' <= Decimal(n)[0] <= '9';
  }

  // ----- The decision ------------------------------------------------------------------------

  type Fields = map<string, string>

  function Stamp(fields: Fields, id: string): Option<int> {
    if Key(id, "updated") in fields then ParseInt(fields[Key(id, "updated")]) else None
  }

  /** When this replica last recovered, as seen by the reader; a circuit that never did counts as zero. */
  datatype View = View(self: string, now: int, ttl: int, closedAt: int)

  predicate Outdated(stamp: int, v: View) { v.now - stamp > v.ttl }

  predicate Predates(stamp: int, v: View) { v.closedAt > 0 && v.closedAt > stamp }

  /** One field of the hash that makes this replica open. */
  predicate Opens(fields: Fields, f: string, v: View)
    requires f in fields
  {
    && Split(f).1 == "state" && Split(f).0 != v.self && fields[f] == "open"
    && var stamp := Stamp(fields, Split(f).0);
    (stamp.Some? ==> !Outdated(stamp.value, v) && !Predates(stamp.value, v))
  }

  /** Goes through the fields in any order; the outcome does not depend on it. */
  method RemoteSaysOpen(fields: Fields, order: seq<string>, v: View) returns (open: bool)
    requires forall f :: f in fields <==> f in order
    ensures open <==> exists f :: f in fields && Opens(fields, f, v)
  {
    for i := 0 to |order|
      invariant forall j :: 0 <= j < i ==> !Opens(fields, order[j], v)
    {
      var field := order[i];
      var id, suffix := SplitLastColon(field);
      if suffix != "state" || id == v.self { continue; }
      var stamp := Stamp(fields, id);
      if stamp.Some? && Outdated(stamp.value, v) { continue; }
      if fields[field] == "open" {
        if stamp.Some? && Predates(stamp.value, v) { continue; }
        return true;
      }
    }
    return false;
  }

  // ----- What the hash means -----------------------------------------------------------------

  datatype Entry = Entry(state: State, failures: nat, updated: nat)

  function Name(s: State): string {
    match s
    case Closed => "closed"
    case Open => "open"
    case HalfOpen => "half-open"
  }

  function Push(fields: Fields, id: string, e: Entry): Fields {
    fields[Key(id, "state") := Name(e.state)]
          [Key(id, "failures") := Decimal(e.failures)]
          [Key(id, "updated") := Decimal(e.updated)]
  }

  ghost predicate Holds(fields: Fields, id: string, e: Entry) {
    && Key(id, "state") in fields && fields[Key(id, "state")] == Name(e.state)
    && Key(id, "updated") in fields && fields[Key(id, "updated")] == Decimal(e.updated)
    && e.updated <= MAX_INT64
  }

  /** The fields are those of exactly these replicas. */
  ghost predicate Encodes(fields: Fields, entries: map<string, Entry>) {
    && (forall id :: id in entries ==> Holds(fields, id, entries[id]))
    && (forall f :: f in fields && Split(f).1 == "state" ==> Split(f).0 in entries && f == Key(Split(f).0, "state"))
  }

  lemma KeysDiffer(a: string, x: string, b: string, y: string)
    requires ':' !in x && ':' !in y && (a != b || x != y)
    ensures Key(a, x) != Key(b, y)
  {
    SplitsBack(a, x);
    SplitsBack(b, y);
  }

  lemma KeptByPush(fields: Fields, id: string, e: Entry, other: string, kept: Entry)
    requires Holds(fields, other, kept) && other != id
    ensures Holds(Push(fields, id, e), other, kept)
  {
    KeysDiffer(other, "state", id, "state");
    KeysDiffer(other, "state", id, "failures");
    KeysDiffer(other, "state", id, "updated");
    KeysDiffer(other, "updated", id, "state");
    KeysDiffer(other, "updated", id, "failures");
    KeysDiffer(other, "updated", id, "updated");
  }

  lemma PushHolds(fields: Fields, id: string, e: Entry)
    requires e.updated <= MAX_INT64
    ensures Holds(Push(fields, id, e), id, e)
  {
    KeysDiffer(id, "state", id, "failures");
    KeysDiffer(id, "state", id, "updated");
  }

  lemma PushedFieldIsKnown(fields: Fields, entries: map<string, Entry>, id: string, e: Entry, f: string)
    requires Encodes(fields, entries) && f in Push(fields, id, e) && Split(f).1 == "state"
    ensures Split(f).0 in entries[id := e] && f == Key(Split(f).0, "state")
  {
    if f !in fields {
      SplitsBack(id, "state");
      SplitsBack(id, "failures");
      SplitsBack(id, "updated");
    }
  }

  /** Writing one replica's three fields replaces that replica's entry and no other. */
  lemma PushKeepsEncoding(fields: Fields, entries: map<string, Entry>, id: string, e: Entry)
    requires Encodes(fields, entries) && e.updated <= MAX_INT64
    ensures Encodes(Push(fields, id, e), entries[id := e])
  {
    PushHolds(fields, id, e);
    forall other | other in entries && other != id ensures Holds(Push(fields, id, e), other, entries[other]) {
      KeptByPush(fields, id, e, other, entries[other]);
    }
    forall f | f in Push(fields, id, e) && Split(f).1 == "state"
      ensures Split(f).0 in entries[id := e] && f == Key(Split(f).0, "state")
    {
      PushedFieldIsKnown(fields, entries, id, e, f);
    }
  }

  /** An entry that makes a reader open: open, not older than the TTL and not older than the recovery. */
  predicate Convincing(e: Entry, v: View) {
    e.state.Open? && !Outdated(e.updated, v) && !Predates(e.updated, v)
  }

  predicate SiblingOpen(entries: map<string, Entry>, v: View) {
    exists id :: id in entries && id != v.self && Convincing(entries[id], v)
  }

  lemma StampDecodes(fields: Fields, id: string, e: Entry, v: View)
    requires Holds(fields, id, e)
    ensures Stamp(fields, id) == Some(e.updated)
    ensures Opens(fields, Key(id, "state"), v) <==> id != v.self && Convincing(e, v)
  {
    ParseDecimal(e.updated);
    SplitsBack(id, "state");
  }

  /** On a hash written by replicas, the string-level decision is the one about their entries. */
  lemma DecisionDecodes(fields: Fields, entries: map<string, Entry>, v: View)
    requires Encodes(fields, entries)
    ensures (exists f :: f in fields && Opens(fields, f, v)) <==> SiblingOpen(entries, v)
  {
    if f :| f in fields && Opens(fields, f, v) {
      StampDecodes(fields, Split(f).0, entries[Split(f).0], v);
      assert Convincing(entries[Split(f).0], v);
    }
    if id :| id in entries && id != v.self && Convincing(entries[id], v) {
      assert Holds(fields, id, entries[id]);
      StampDecodes(fields, id, entries[id], v);
      assert Opens(fields, Key(id, "state"), v);
    }
  }

  const NANOS := 1_000_000_000

  /** A record's recovery time as the reader compares it; never recovered counts as zero. */
  function RecoveredAt(r: Record): int { if r.closedAt.Some? then r.closedAt.value / NANOS else 0 }
}
