/**
 The tamper-evident audit log (src/audit/mod.rs): rows carry the hash of their payload chained to the
 hash of the row before. The writer and the verifier are separate pieces of code; what one produces
 the other accepts, and what somebody changes afterwards the verifier reports.

 The hash function is a parameter. Where tampering is concerned it is assumed injective, which is
 what SHA-256 stands for.
*/
module AuditChain {
  import opened Wrappers

  type Digest = nat
  type HashFn = (Option<Digest>, string) -> Digest

  ghost predicate Injective(h: HashFn) {
    forall p, x, q, y :: h(p, x) == h(q, y) ==> p == q && x == y
  }

  /** A stored row. `unhashed`: the columns outside the payload (the raw SQL, scope and digest of the approval,
      the policy revision). `hash` is empty when chaining was off, `prev` also at the start of a chain. */
  datatype Row = Row(id: nat, payload: string, unhashed: string, prev: Option<Digest>, hash: Option<Digest>)

  datatype Verification = Verification(rowsChecked: nat, brokenAt: Option<nat>, epoch: nat) {
    predicate Accepted() {
      brokenAt.None?
    }
  }

  // ----- Writer and verifier -----

  function Appended(h: HashFn, rows: seq<Row>, id: nat, payload: string, unhashed: string, chained: bool): seq<Row> {
    if chained then
      var prev := if rows == [] then None else rows[|rows| - 1].hash;
      rows + [Row(id, payload, unhashed, prev, Some(h(prev, payload)))]
    else rows + [Row(id, payload, unhashed, None, None)]
  }

  /** What was asked to be written, by number. */
  datatype Entry = Entry(id: nat, payload: string, unhashed: string, chained: bool)

  /** What a stored row says. */
  function EntryOf(r: Row): Entry {
    Entry(r.id, r.payload, r.unhashed, r.hash.Some?)
  }

  /** The verifier's scan from a point where the last chained hash is `prev`. */
  function Scan(h: HashFn, rows: seq<Row>, prev: Option<Digest>, checked: nat, epoch: nat): Verification {
    if rows == [] then Verification(checked, None, epoch) else
      var r := rows[0];
      if r.hash.None? then
        if r.prev.None? then Scan(h, rows[1..], None, checked, epoch + 1)
        else Scan(h, rows[1..], prev, checked, epoch)
      else if h(r.prev, r.payload) != r.hash.value then Verification(checked, Some(r.id), epoch)
      else if prev.Some? && r.prev.Some? && prev != r.prev then Verification(checked, Some(r.id), epoch)
      else Scan(h, rows[1..], r.hash, checked + 1, if prev.None? && r.prev.Some? then epoch + 1 else epoch)
  }

  function Verify(h: HashFn, rows: seq<Row>): Verification {
    Scan(h, rows, None, 0, 0)
  }

  class AuditLog {
    const hash: HashFn
    var rows: seq<Row>
    var nextId: nat

    constructor (hash: HashFn)
      ensures this.hash == hash && rows == [] && nextId == 1
    {
      this.hash, rows, nextId := hash, [], 1;
    }

    /** Reads the last row's hash and appends, in one transaction. */
    method WriteEntry(payload: string, unhashed: string, chained: bool) returns (id: nat)
      modifies this
      ensures id == old(nextId) && nextId == id + 1
      ensures rows == Appended(hash, old(rows), id, payload, unhashed, chained)
      ensures |rows| == |old(rows)| + 1 && rows[..|old(rows)|] == old(rows)
      ensures EntryOf(rows[|old(rows)|]) == Entry(id, payload, unhashed, chained)
    {
      var prev, rowHash := None, None;
      if chained {
        if |rows| > 0 {
          prev := rows[|rows| - 1].hash;
        }
        rowHash := Some(hash(prev, payload));
      }
      id := nextId;
      rows := rows + [Row(id, payload, unhashed, prev, rowHash)];
      nextId := nextId + 1;
    }

    method VerifyChain() returns (v: Verification)
      ensures v == Verify(hash, rows)
    {
      var checked, epoch, prev := 0, 0, None;
      for k := 0 to |rows|
        invariant Verify(hash, rows) == Scan(hash, rows[k..], prev, checked, epoch)
      {
        var r := rows[k];
        assert rows[k..][1..] == rows[k + 1..];
        if r.hash.None? {
          if r.prev.None? {
            epoch := epoch + 1;
            prev := None;
          }
        } else {
          if hash(r.prev, r.payload) != r.hash.value {
            return Verification(checked, Some(r.id), epoch);
          }
          if prev.Some? && r.prev.Some? {
            if prev.value != r.prev.value {
              return Verification(checked, Some(r.id), epoch);
            }
          } else if prev.None? && r.prev.Some? {
            epoch := epoch + 1;
          }
          prev := r.hash;
          checked := checked + 1;
        }
      }
      v := Verification(checked, None, epoch);
    }
  }

  // ----- Logs the writer and the retention of oldest rows can produce -----

  datatype Event = Append(payload: string, unhashed: string, chained: bool) | ExpireOldest(k: nat)

  function Run(h: HashFn, rows: seq<Row>, nextId: nat, events: seq<Event>): seq<Row>
    decreases |events|
  {
    if events == [] then rows else
      match events[0]
      case Append(payload, unhashed, chained) =>
        Run(h, Appended(h, rows, nextId, payload, unhashed, chained), nextId + 1, events[1..])
      case ExpireOldest(k) => Run(h, rows[if k <= |rows| then k else |rows|..], nextId, events[1..])
  }

  /** Every chained row covers its payload and points at the row before it, if that is still there. */
  ghost predicate WellChained(h: HashFn, rows: seq<Row>) {
    forall i :: 0 <= i < |rows| ==> WellChainedAt(h, rows, i)
  }

  predicate WellChainedAt(h: HashFn, rows: seq<Row>, i: nat)
    requires i < |rows|
  {
    && (rows[i].hash.None? ==> rows[i].prev.None?)
    && (rows[i].hash.Some? ==> rows[i].hash.value == h(rows[i].prev, rows[i].payload))
    && (i > 0 && rows[i].hash.Some? ==> rows[i].prev == rows[i - 1].hash)
  }

  lemma SuffixWellChained(h: HashFn, rows: seq<Row>, k: nat)
    requires WellChained(h, rows) && k <= |rows|
    ensures WellChained(h, rows[k..])
  {
    forall i | 0 <= i < |rows[k..]|
      ensures WellChainedAt(h, rows[k..], i)
    {
      assert WellChainedAt(h, rows, k + i);
    }
  }

  lemma PrefixWellChained(h: HashFn, rows: seq<Row>, k: nat)
    requires WellChained(h, rows) && k <= |rows|
    ensures WellChained(h, rows[..k])
  {
    forall i | 0 <= i < k
      ensures WellChainedAt(h, rows[..k], i)
    {
      assert WellChainedAt(h, rows, i);
    }
  }

  function Chained(rows: seq<Row>): (n: nat)
    ensures n <= |rows|
  {
    if rows == [] then 0 else (if rows[0].hash.Some? then 1 else 0) + Chained(rows[1..])
  }

  lemma FirstTwo(h: HashFn, rows: seq<Row>)
    requires WellChained(h, rows) && rows != []
    ensures WellChainedAt(h, rows, 0) && WellChained(h, rows[1..])
    ensures |rows| > 1 ==> rows[1..][0] == rows[1] && WellChainedAt(h, rows, 1)
  {
    SuffixWellChained(h, rows, 1);
    assert |rows| > 1 ==> WellChainedAt(h, rows, 1);
  }

  lemma {:induction false} RunIsWellChained(h: HashFn, rows: seq<Row>, nextId: nat, events: seq<Event>)
    requires WellChained(h, rows)
    ensures WellChained(h, Run(h, rows, nextId, events))
    decreases |events|
  {
    if events != [] {
      match events[0] {
        case Append(payload, unhashed, chained) =>
          var more := Appended(h, rows, nextId, payload, unhashed, chained);
          forall i | 0 <= i < |more|
            ensures WellChainedAt(h, more, i)
          {
            assert i < |rows| ==> WellChainedAt(h, rows, i);
          }
          RunIsWellChained(h, more, nextId + 1, events[1..]);
        case ExpireOldest(k) =>
          SuffixWellChained(h, rows, if k <= |rows| then k else |rows|);
          RunIsWellChained(h, rows[if k <= |rows| then k else |rows|..], nextId, events[1..]);
      }
    }
  }

  /** The verifier accepts a well-chained log; each unchained row starts an epoch, and so does a
      first row whose predecessor has expired. */
  lemma {:induction false} ScanAccepts(h: HashFn, rows: seq<Row>, prev: Option<Digest>, checked: nat, epoch: nat)
    requires WellChained(h, rows)
    requires rows != [] && rows[0].hash.Some? && prev.Some? ==> rows[0].prev == prev
    ensures Scan(h, rows, prev, checked, epoch) ==
            Verification(checked + Chained(rows), None,
                         epoch + (|rows| - Chained(rows))
                         + if rows != [] && prev.None? && rows[0].prev.Some? then 1 else 0)
    decreases |rows|
  {
    if rows != [] {
      var r := rows[0];
      var dangling := if prev.None? && r.prev.Some? then 1 else 0;
      FirstTwo(h, rows);
      ScanAccepts(h, rows[1..], r.hash, checked + (if r.hash.Some? then 1 else 0),
                  epoch + (if r.hash.Some? then dangling else 1));
    }
  }

  /** After any appends, chained or not, and any deletions of oldest rows, `verify_chain` reports ok
      and counts exactly the chained rows that are left. */
  lemma HonestLogVerifies(h: HashFn, events: seq<Event>)
    ensures var rows := Run(h, [], 1, events);
            Verify(h, rows).Accepted() && Verify(h, rows).rowsChecked == Chained(rows)
  {
    RunIsWellChained(h, [], 1, events);
    ScanAccepts(h, Run(h, [], 1, events), None, 0, 0);
  }

  // ----- The log holds what was written -----

  /** Everything that was ever written, numbered from 1. */
  function Written(events: seq<Event>): seq<Entry> {
    if events == [] then [] else
      var before := Written(events[..|events| - 1]);
      match events[|events| - 1]
      case Append(payload, unhashed, chained) => before + [Entry(|before| + 1, payload, unhashed, chained)]
      case ExpireOldest(_) => before
  }

  /** How many of them have expired. */
  function Expired(events: seq<Event>): nat {
    if events == [] then 0 else
      var before := events[..|events| - 1];
      match events[|events| - 1]
      case Append(_, _, _) => Expired(before)
      case ExpireOldest(k) =>
        if Expired(before) + k <= |Written(before)| then Expired(before) + k else |Written(before)|
  }

  lemma {:induction false} ExpiredWereWritten(events: seq<Event>)
    ensures Expired(events) <= |Written(events)|
    decreases |events|
  {
    if events != [] {
      ExpiredWereWritten(events[..|events| - 1]);
    }
  }

  lemma {:induction false} RunSnoc(h: HashFn, rows: seq<Row>, nextId: nat, events: seq<Event>, last: Event)
    ensures var before, id := Run(h, rows, nextId, events), nextId + |Written(events)|;
            Run(h, rows, nextId, events + [last]) ==
            match last
            case Append(payload, unhashed, chained) => Appended(h, before, id, payload, unhashed, chained)
            case ExpireOldest(k) => before[if k <= |before| then k else |before|..]
    decreases |events|
  {
    if events == [] {
      assert events + [last] == [last] && [last][1..] == [];
    } else {
      assert (events + [last])[1..] == events[1..] + [last];
      WrittenFirst(events);
      match events[0] {
        case Append(payload, unhashed, chained) =>
          RunSnoc(h, Appended(h, rows, nextId, payload, unhashed, chained), nextId + 1, events[1..], last);
        case ExpireOldest(k) =>
          RunSnoc(h, rows[if k <= |rows| then k else |rows|..], nextId, events[1..], last);
      }
    }
  }

  lemma {:induction false} WrittenFirst(events: seq<Event>)
    requires events != []
    ensures |Written(events)| == |Written(events[1..])| + if events[0].Append? then 1 else 0
    decreases |events|
  {
    if |events| > 1 {
      var n := |events| - 1;
      assert events[1..][..n - 1] == events[..n][1..];
      WrittenFirst(events[..n]);
    }
  }

  /** One row for one entry, and a hash that covers the payload just where chaining was on. */
  ghost predicate Stored(h: HashFn, rows: seq<Row>, entries: seq<Entry>) {
    |rows| == |entries| && forall i :: 0 <= i < |rows| ==> StoredAt(h, rows, entries, i)
  }

  ghost predicate StoredAt(h: HashFn, rows: seq<Row>, entries: seq<Entry>, i: nat)
    requires i < |rows| && i < |entries|
  {
    && rows[i].id == entries[i].id && rows[i].payload == entries[i].payload
    && rows[i].unhashed == entries[i].unhashed
    && if entries[i].chained then rows[i].hash == Some(h(rows[i].prev, rows[i].payload))
       else rows[i].hash == None && rows[i].prev == None
  }

  lemma {:induction false} RowsAreEntries(h: HashFn, events: seq<Event>)
    ensures Expired(events) <= |Written(events)|
    ensures Stored(h, Run(h, [], 1, events), Written(events)[Expired(events)..])
    decreases |events|
  {
    ExpiredWereWritten(events);
    if events != [] {
      var before, last := events[..|events| - 1], events[|events| - 1];
      assert events == before + [last];
      RowsAreEntries(h, before);
      RunSnoc(h, [], 1, before, last);
      LeftAfter(before, last);
      var was, left := Run(h, [], 1, before), Written(before)[Expired(before)..];
      hide Run, Stored, Written, Expired, Appended;
      match last {
        case Append(payload, unhashed, chained) =>
          OneMoreStored(h, was, left, 1 + |Written(before)|, payload, unhashed, chained);
        case ExpireOldest(k) =>
          SameLength(h, was, left);
          FewerStored(h, was, left, if k <= |was| then k else |was|);
      }
    }
  }

  /** The very first row points at none. */
  ghost predicate FirstPointsNowhere(rows: seq<Row>) {
    rows != [] && rows[0].id == 1 ==> rows[0].prev.None?
  }

  lemma {:induction false} FirstAlwaysPointsNowhere(h: HashFn, events: seq<Event>)
    ensures FirstPointsNowhere(Run(h, [], 1, events))
    decreases |events|
  {
    if events != [] {
      var before, last := events[..|events| - 1], events[|events| - 1];
      assert events == before + [last];
      FirstAlwaysPointsNowhere(h, before);
      RunSnoc(h, [], 1, before, last);
      RowsAreEntries(h, before);
      FirstNumber(h, Run(h, [], 1, before), before);
      hide Run, Stored, Written, Expired;
    }
  }

  /** After any events the rows of the log are, in order, exactly the entries written and not expired, each with
      its number, its payload and its other columns; chained ones point at the row before, and the very first
      row at none. */
  lemma LogHoldsWhatWasWritten(h: HashFn, events: seq<Event>)
    ensures var rows := Run(h, [], 1, events);
            && Expired(events) <= |Written(events)|
            && Stored(h, rows, Written(events)[Expired(events)..])
            && (forall i :: 0 < i < |rows| && rows[i].hash.Some? ==> rows[i].prev == rows[i - 1].hash)
            && (rows != [] && rows[0].id == 1 ==> rows[0].prev.None?)
  {
    RowsAreEntries(h, events);
    FirstAlwaysPointsNowhere(h, events);
    RunIsWellChained(h, [], 1, events);
    var rows := Run(h, [], 1, events);
    forall i | 0 < i < |rows| && rows[i].hash.Some? ensures rows[i].prev == rows[i - 1].hash {
      assert WellChainedAt(h, rows, i);
    }
  }

  lemma SameLength(h: HashFn, rows: seq<Row>, entries: seq<Entry>)
    requires Stored(h, rows, entries)
    ensures |rows| == |entries|
  {
  }

  lemma {:induction false} WrittenInOrder(events: seq<Event>)
    ensures forall j :: 0 <= j < |Written(events)| ==> Written(events)[j].id == j + 1
    decreases |events|
  {
    if events != [] {
      WrittenInOrder(events[..|events| - 1]);
    }
  }

  lemma OneMoreStored(h: HashFn, rows: seq<Row>, entries: seq<Entry>, id: nat, payload: string, unhashed: string,
                      chained: bool)
    requires Stored(h, rows, entries)
    ensures Stored(h, Appended(h, rows, id, payload, unhashed, chained),
                   entries + [Entry(id, payload, unhashed, chained)])
  {
    var more := Appended(h, rows, id, payload, unhashed, chained);
    var all := entries + [Entry(id, payload, unhashed, chained)];
    forall i | 0 <= i < |more| ensures StoredAt(h, more, all, i) {
      assert i < |rows| ==> StoredAt(h, rows, entries, i);
    }
  }

  lemma FewerStored(h: HashFn, rows: seq<Row>, entries: seq<Entry>, n: nat)
    requires Stored(h, rows, entries) && n <= |rows|
    ensures Stored(h, rows[n..], entries[n..])
  {
    forall i | 0 <= i < |rows[n..]| ensures StoredAt(h, rows[n..], entries[n..], i) {
      assert StoredAt(h, rows, entries, n + i);
    }
  }

  /** The entries left by one more event. */
  lemma LeftAfter(before: seq<Event>, last: Event)
    requires Expired(before) <= |Written(before)| && Expired(before + [last]) <= |Written(before + [last])|
    ensures var left, next := Written(before)[Expired(before)..], Written(before + [last])[Expired(before + [last])..];
            match last
            case Append(payload, unhashed, chained) =>
              next == left + [Entry(|Written(before)| + 1, payload, unhashed, chained)]
            case ExpireOldest(k) => next == left[if k <= |left| then k else |left|..]
  {
    assert (before + [last])[..|before + [last]| - 1] == before;
  }

  /** The numbers of the rows say how many have expired. */
  lemma FirstNumber(h: HashFn, rows: seq<Row>, events: seq<Event>)
    requires Expired(events) <= |Written(events)| && Stored(h, rows, Written(events)[Expired(events)..])
    ensures forall i :: 0 <= i < |rows| ==> rows[i].id == Expired(events) + i + 1
  {
    WrittenInOrder(events);
    forall i | 0 <= i < |rows| ensures rows[i].id == Expired(events) + i + 1 {
      assert StoredAt(h, rows, Written(events)[Expired(events)..], i);
    }
  }

  // ----- Tampering -----

  lemma {:induction false} ScanEdited(h: HashFn, rows: seq<Row>, i: nat, payload: string, prev: Option<Digest>,
                                      checked: nat, epoch: nat)
    requires Injective(h) && i < |rows| && Scan(h, rows, prev, checked, epoch).Accepted()
    ensures var edited := rows[i := rows[i].(payload := payload)];
            Scan(h, edited, prev, checked, epoch).brokenAt ==
            if rows[i].hash.Some? && payload != rows[i].payload then Some(rows[i].id) else None
    decreases |rows|
  {
    var edited := rows[i := rows[i].(payload := payload)];
    var r := rows[0];
    if i == 0 {
      assert edited[1..] == rows[1..];
      assert h(r.prev, payload) == h(r.prev, r.payload) ==> payload == r.payload;
    } else {
      assert edited[1..] == rows[1..][i - 1 := rows[1..][i - 1].(payload := payload)];
      if r.hash.None? {
        ScanEdited(h, rows[1..], i - 1, payload, if r.prev.None? then None else prev, checked,
                   if r.prev.None? then epoch + 1 else epoch);
      } else {
        ScanEdited(h, rows[1..], i - 1, payload, r.hash, checked + 1,
                   if prev.None? && r.prev.Some? then epoch + 1 else epoch);
      }
    }
  }

  /** Changing the payload of one row of an accepted log is reported, at exactly that row, if and only
      if the row is chained and the payload really changes. */
  lemma EditIsReportedIff(h: HashFn, rows: seq<Row>, i: nat, payload: string)
    requires Injective(h) && i < |rows| && Verify(h, rows).Accepted()
    ensures Verify(h, rows[i := rows[i].(payload := payload)]).brokenAt ==
            if rows[i].hash.Some? && payload != rows[i].payload then Some(rows[i].id) else None
  {
    ScanEdited(h, rows, i, payload, None, 0, 0);
  }

  /** A run with a hash on every row, linked throughout, that starts without a predecessor. */
  ghost predicate LinkedRun(h: HashFn, rows: seq<Row>) {
    && WellChained(h, rows)
    && (forall i :: 0 <= i < |rows| ==> rows[i].hash.Some?)
    && (rows != [] ==> rows[0].prev.None?)
  }

  lemma {:induction false} ScanAcceptedMeans(h: HashFn, rows: seq<Row>, prev: Option<Digest>, checked: nat, epoch: nat)
    requires Scan(h, rows, prev, checked, epoch).Accepted()
    requires forall i :: 0 <= i < |rows| ==> rows[i].hash.Some?
    ensures forall i :: 0 <= i < |rows| ==> rows[i].hash.value == h(rows[i].prev, rows[i].payload)
    ensures forall i :: 0 < i < |rows| && rows[i].prev.Some? ==> rows[i].prev == rows[i - 1].hash
    ensures rows != [] && prev.Some? && rows[0].prev.Some? ==> rows[0].prev == prev
    decreases |rows|
  {
    if rows != [] {
      var r := rows[0];
      ScanAcceptedMeans(h, rows[1..], r.hash, checked + 1, if prev.None? && r.prev.Some? then epoch + 1 else epoch);
      forall i | 0 <= i < |rows|
        ensures rows[i].hash.value == h(rows[i].prev, rows[i].payload)
        ensures i > 0 && rows[i].prev.Some? ==> rows[i].prev == rows[i - 1].hash
      {
        if i > 0 {
          assert rows[i] == rows[1..][i - 1];
          assert i > 1 ==> rows[i - 1] == rows[1..][i - 2];
        }
      }
    }
  }

  /** What acceptance says about a fully chained log in which only the first row lacks a predecessor. */
  lemma AcceptedIsLinked(h: HashFn, rows: seq<Row>)
    requires Verify(h, rows).Accepted()
    requires forall i :: 0 <= i < |rows| ==> rows[i].hash.Some? && (rows[i].prev.None? <==> i == 0)
    ensures LinkedRun(h, rows)
  {
    ScanAcceptedMeans(h, rows, None, 0, 0);
    forall i | 0 <= i < |rows|
      ensures WellChainedAt(h, rows, i)
    {
    }
  }

  lemma {:induction false} SameHashSamePast(h: HashFn, a: seq<Row>, b: seq<Row>)
    requires Injective(h) && LinkedRun(h, a) && LinkedRun(h, b) && a != [] && b != []
    requires a[|a| - 1].hash == b[|b| - 1].hash
    ensures |a| == |b| && forall i :: 0 <= i < |a| ==> a[i].payload == b[i].payload && a[i].hash == b[i].hash
    decreases |a|
  {
    var x, y := a[|a| - 1], b[|b| - 1];
    assert WellChainedAt(h, a, |a| - 1) && WellChainedAt(h, b, |b| - 1);
    assert h(x.prev, x.payload) == h(y.prev, y.payload);
    PrefixWellChained(h, a, |a| - 1);
    PrefixWellChained(h, b, |b| - 1);
    if |a| > 1 {
      SameHashSamePast(h, a[..|a| - 1], b[..|b| - 1]);
    }
  }

  /** The last hash pins down the whole history: two accepted, fully linked logs that end in the same
      row hash have the same length and the same payloads row by row. */
  lemma HeadHashFixesHistory(h: HashFn, a: seq<Row>, b: seq<Row>)
    requires Injective(h) && a != [] && b != []
    requires Verify(h, a).Accepted() && Verify(h, b).Accepted()
    requires forall i :: 0 <= i < |a| ==> a[i].hash.Some? && (a[i].prev.None? <==> i == 0)
    requires forall i :: 0 <= i < |b| ==> b[i].hash.Some? && (b[i].prev.None? <==> i == 0)
    requires a[|a| - 1].hash == b[|b| - 1].hash
    ensures |a| == |b| && forall i :: 0 <= i < |a| ==> a[i].payload == b[i].payload
  {
    AcceptedIsLinked(h, a);
    AcceptedIsLinked(h, b);
    SameHashSamePast(h, a, b);
  }

  // ----- Deletions that are not of the oldest rows -----

  /** A well-chained log scanned with any previous hash: only its first row can be found broken. */
  lemma ScanFromElsewhere(h: HashFn, rows: seq<Row>, prev: Option<Digest>, checked: nat, epoch: nat)
    requires WellChained(h, rows) && rows != []
    ensures var s := rows[0];
            Scan(h, rows, prev, checked, epoch).brokenAt ==
            if s.hash.Some? && prev.Some? && s.prev.Some? && prev != s.prev then Some(s.id) else None
  {
    var s := rows[0];
    FirstTwo(h, rows);
    ScanAccepts(h, rows[1..], s.hash, checked + (if s.hash.Some? then 1 else 0),
                if s.hash.None? || (prev.None? && s.prev.Some?) then epoch + 1 else epoch);
  }

  lemma {:induction false} ScanGap(h: HashFn, rows: seq<Row>, i: nat, j: nat, prev: Option<Digest>, checked: nat,
                                   epoch: nat)
    requires WellChained(h, rows) && 0 < i <= j < |rows|
    requires rows[0].hash.Some? && prev.Some? ==> rows[0].prev == prev
    ensures Scan(h, rows[..i] + rows[j..], prev, checked, epoch).brokenAt ==
            if GapShows(rows, i, j) then Some(rows[j].id) else None
    decreases i
  {
    var r := rows[0];
    var rest := rows[..i] + rows[j..];
    var checked', epoch' := checked + (if r.hash.Some? then 1 else 0),
                            if r.hash.None? || (prev.None? && r.prev.Some?) then epoch + 1 else epoch;
    assert rest[0] == r;
    FirstTwo(h, rows);
    SuffixWellChained(h, rows, j);
    assert Scan(h, rest, prev, checked, epoch) == Scan(h, rest[1..], r.hash, checked', epoch');
    hide Scan, WellChained;
    if i == 1 {
      assert rest[1..] == rows[j..];
      ScanFromElsewhere(h, rows[j..], r.hash, checked', epoch');
    } else {
      assert rest[1..] == rows[1..][..i - 1] + rows[1..][j - 1..];
      ScanGap(h, rows[1..], i - 1, j - 1, r.hash, checked', epoch');
    }
  }

  /** The rows on both sides of the gap are chained, and the row after it points somewhere else. */
  predicate GapShows(rows: seq<Row>, i: nat, j: nat)
    requires 0 < i && j < |rows| && i <= |rows|
  {
    rows[i - 1].hash.Some? && rows[j].hash.Some? && rows[j].prev.Some? && rows[j].prev != rows[i - 1].hash
  }

  /** Deleting rows i..j from the middle of an honest log is reported at the row after the gap exactly
      when the gap shows, and is otherwise accepted. This is what retention by category runs into. */
  lemma InteriorDeletionIsReportedIff(h: HashFn, events: seq<Event>, i: nat, j: nat)
    requires 0 < i <= j < |Run(h, [], 1, events)|
    ensures var rows := Run(h, [], 1, events);
            Verify(h, rows[..i] + rows[j..]).brokenAt == if GapShows(rows, i, j) then Some(rows[j].id) else None
  {
    RunIsWellChained(h, [], 1, events);
    ScanGap(h, Run(h, [], 1, events), i, j, None, 0, 0);
  }

  /** In a fully chained log no two rows share a hash, so there every gap shows. */
  lemma EveryGapShows(h: HashFn, rows: seq<Row>, i: nat, j: nat)
    requires Injective(h) && LinkedRun(h, rows) && 0 < i < j < |rows|
    ensures GapShows(rows, i, j)
    ensures Verify(h, rows[..i] + rows[j..]).brokenAt == Some(rows[j].id)
  {
    PrefixWellChained(h, rows, i);
    PrefixWellChained(h, rows, j);
    assert WellChainedAt(h, rows, j);
    if rows[j - 1].hash == rows[i - 1].hash {
      SameHashSamePast(h, rows[..i], rows[..j]);
    }
    ScanGap(h, rows, i, j, None, 0, 0);
  }

  /** Two rows side by side that do not belong together. */
  predicate Shows(s: seq<Row>, m: nat)
    requires 0 < m < |s|
  {
    s[m - 1].hash.Some? && s[m].hash.Some? && s[m].prev.Some? && s[m].prev != s[m - 1].hash
  }

  /** The rows that are left, by their places in the old log. */
  ghost predicate Picks(picks: seq<nat>, n: nat) {
    && (forall m :: 0 <= m < |picks| ==> picks[m] < n)
    && (forall k, m :: 0 <= k < m < |picks| ==> picks[k] < picks[m])
  }

  function Picked(rows: seq<Row>, picks: seq<nat>): seq<Row>
    requires forall m :: 0 <= m < |picks| ==> picks[m] < |rows|
  {
    seq(|picks|, m requires 0 <= m < |picks| => rows[picks[m]])
  }

  /** A row that fits its own hash, whatever stands before it. */
  predicate Sealed(h: HashFn, r: Row) {
    (r.hash.None? ==> r.prev.None?) && (r.hash.Some? ==> r.hash.value == h(r.prev, r.payload))
  }

  /** `at` is the first place from `i` on that shows a gap. */
  ghost predicate FirstGap(s: seq<Row>, i: nat, at: Option<nat>) {
    match at
    case None => forall m :: i <= m < |s| && 0 < m ==> !Shows(s, m)
    case Some(m) => i <= m < |s| && 0 < m && Shows(s, m) && forall k :: i <= k < m && 0 < k ==> !Shows(s, k)
  }

  lemma {:induction false} ScanFindsFirstGap(h: HashFn, s: seq<Row>, i: nat, checked: nat, epoch: nat)
    returns (at: Option<nat>)
    requires i <= |s| && forall m :: 0 <= m < |s| ==> Sealed(h, s[m])
    ensures FirstGap(s, i, at)
    ensures var prev := if i == 0 then None else s[i - 1].hash;
            Scan(h, s[i..], prev, checked, epoch).brokenAt == if at.Some? then Some(s[at.value].id) else None
    decreases |s| - i
  {
    if i == |s| {
      at := None;
    } else {
      var r := s[i];
      var prev := if i == 0 then None else s[i - 1].hash;
      assert Sealed(h, r);
      assert s[i..][1..] == s[i + 1..];
      if i > 0 && Shows(s, i) {
        at := Some(i);
      } else if r.hash.None? {
        at := ScanFindsFirstGap(h, s, i + 1, checked, epoch + 1);
      } else {
        at := ScanFindsFirstGap(h, s, i + 1, checked + 1, if prev.None? && r.prev.Some? then epoch + 1 else epoch);
      }
    }
  }

  /** A log in which appends and losses of any rows alternate. */
  datatype LossyEvent = Write(payload: string, unhashed: string, chained: bool) | Lose(ids: set<nat>)

  function Remaining(rows: seq<Row>, ids: set<nat>): seq<Row> {
    if rows == [] then [] else (if rows[0].id in ids then [] else [rows[0]]) + Remaining(rows[1..], ids)
  }

  function LossyRun(h: HashFn, rows: seq<Row>, nextId: nat, events: seq<LossyEvent>): seq<Row>
    decreases |events|
  {
    if events == [] then rows else
      match events[0]
      case Write(payload, unhashed, chained) =>
        LossyRun(h, Appended(h, rows, nextId, payload, unhashed, chained), nextId + 1, events[1..])
      case Lose(ids) => LossyRun(h, Remaining(rows, ids), nextId, events[1..])
  }

  ghost predicate AllSealed(h: HashFn, rows: seq<Row>) {
    forall m :: 0 <= m < |rows| ==> Sealed(h, rows[m])
  }

  lemma {:induction false} RemainingSealed(h: HashFn, rows: seq<Row>, ids: set<nat>)
    requires AllSealed(h, rows)
    ensures AllSealed(h, Remaining(rows, ids))
    decreases |rows|
  {
    if rows != [] {
      assert Sealed(h, rows[0]);
      RemainingSealed(h, rows[1..], ids);
    }
  }

  lemma {:induction false} LossyRunSealed(h: HashFn, rows: seq<Row>, nextId: nat, events: seq<LossyEvent>)
    requires AllSealed(h, rows)
    ensures AllSealed(h, LossyRun(h, rows, nextId, events))
    decreases |events|
  {
    if events != [] {
      match events[0] {
        case Write(payload, unhashed, chained) =>
          LossyRunSealed(h, Appended(h, rows, nextId, payload, unhashed, chained), nextId + 1, events[1..]);
        case Lose(ids) =>
          RemainingSealed(h, rows, ids);
          LossyRunSealed(h, Remaining(rows, ids), nextId, events[1..]);
      }
    }
  }

  /** However appends and losses alternate: the verifier stops at the first row that stands beside one it does
      not belong to, and accepts the log if there is none. */
  lemma SurvivorsAreReportedIff(h: HashFn, events: seq<LossyEvent>) returns (at: Option<nat>)
    ensures var s := LossyRun(h, [], 1, events);
            FirstGap(s, 0, at) && Verify(h, s).brokenAt == if at.Some? then Some(s[at.value].id) else None
  {
    var s := LossyRun(h, [], 1, events);
    LossyRunSealed(h, [], 1, events);
    at := ScanFindsFirstGap(h, s, 0, 0, 0);
    assert s[0..] == s;
  }

  /** What is left of the entries written, however writing and losing alternate: a lost number is gone for good, and
      a number not lost since it was written is there. */
  function Left(entries: seq<Entry>, nextId: nat, events: seq<LossyEvent>): seq<Entry>
    decreases |events|
  {
    if events == [] then entries else
      match events[0]
      case Write(payload, unhashed, chained) =>
        Left(entries + [Entry(nextId, payload, unhashed, chained)], nextId + 1, events[1..])
      case Lose(ids) => Left(NotIn(entries, ids), nextId, events[1..])
  }

  function NotIn(entries: seq<Entry>, ids: set<nat>): seq<Entry> {
    if entries == [] then [] else (if entries[0].id in ids then [] else [entries[0]]) + NotIn(entries[1..], ids)
  }

  lemma {:induction false} RemainingStored(h: HashFn, rows: seq<Row>, entries: seq<Entry>, ids: set<nat>)
    requires Stored(h, rows, entries)
    ensures Stored(h, Remaining(rows, ids), NotIn(entries, ids))
    decreases |rows|
  {
    if rows != [] {
      assert StoredAt(h, rows, entries, 0);
      forall i | 0 <= i < |rows[1..]| ensures StoredAt(h, rows[1..], entries[1..], i) {
        assert StoredAt(h, rows, entries, i + 1);
      }
      RemainingStored(h, rows[1..], entries[1..], ids);
      var r, e := Remaining(rows[1..], ids), NotIn(entries[1..], ids);
      forall i | 0 <= i < |Remaining(rows, ids)| ensures StoredAt(h, Remaining(rows, ids), NotIn(entries, ids), i) {
        if rows[0].id in ids {
          assert StoredAt(h, r, e, i);
        } else if i > 0 {
          assert StoredAt(h, r, e, i - 1);
        }
      }
    }
  }

  /** Losing rows loses whole rows: the others stay as they were written. */
  lemma {:induction false} SurvivorsAreAsWritten(h: HashFn, rows: seq<Row>, entries: seq<Entry>, nextId: nat,
                                                 events: seq<LossyEvent>)
    requires Stored(h, rows, entries)
    ensures Stored(h, LossyRun(h, rows, nextId, events), Left(entries, nextId, events))
    decreases |events|
  {
    if events != [] {
      match events[0] {
        case Write(payload, unhashed, chained) =>
          OneMoreStored(h, rows, entries, nextId, payload, unhashed, chained);
          SurvivorsAreAsWritten(h, Appended(h, rows, nextId, payload, unhashed, chained),
                                entries + [Entry(nextId, payload, unhashed, chained)], nextId + 1, events[1..]);
        case Lose(ids) =>
          RemainingStored(h, rows, entries, ids);
          SurvivorsAreAsWritten(h, Remaining(rows, ids), NotIn(entries, ids), nextId, events[1..]);
      }
    }
  }

  /** A fully chained log that loses rows is accepted exactly when what is left is one piece of it. */
  lemma OnePieceIff(h: HashFn, rows: seq<Row>, picks: seq<nat>)
    requires Injective(h) && LinkedRun(h, rows) && Picks(picks, |rows|)
    ensures Verify(h, Picked(rows, picks)).Accepted()
       <==> forall m :: 0 < m < |picks| ==> picks[m] == picks[m - 1] + 1
  {
    var s := Picked(rows, picks);
    forall m | 0 <= m < |s| ensures Sealed(h, s[m]) {
      assert WellChainedAt(h, rows, picks[m]);
    }
    var at := ScanFindsFirstGap(h, s, 0, 0, 0);
    assert s[0..] == s;
    forall m | 0 < m < |s| ensures Shows(s, m) <==> picks[m] != picks[m - 1] + 1 {
      var i, j := picks[m - 1] + 1, picks[m];
      assert WellChainedAt(h, rows, j);
      if i < j {
        EveryGapShows(h, rows, i, j);
      }
    }
  }

  lemma {:induction false} ScanIgnores(h: HashFn, rows: seq<Row>, i: nat, text: string, prev: Option<Digest>,
                                       checked: nat, epoch: nat)
    requires i < |rows|
    ensures Scan(h, rows[i := rows[i].(unhashed := text)], prev, checked, epoch) == Scan(h, rows, prev, checked, epoch)
    decreases |rows|
  {
    var edited := rows[i := rows[i].(unhashed := text)];
    var r := rows[0];
    if i == 0 {
      assert edited[1..] == rows[1..];
    } else {
      assert edited[1..] == rows[1..][i - 1 := rows[1..][i - 1].(unhashed := text)];
      if r.hash.None? {
        ScanIgnores(h, rows[1..], i - 1, text, if r.prev.None? then None else prev, checked,
                    if r.prev.None? then epoch + 1 else epoch);
      } else {
        ScanIgnores(h, rows[1..], i - 1, text, r.hash, checked + 1,
                    if prev.None? && r.prev.Some? then epoch + 1 else epoch);
      }
    }
  }

  /** An edit of the columns outside the payload is never noticed, on any log. */
  lemma UnhashedEditIsNeverReported(h: HashFn, rows: seq<Row>, i: nat, text: string)
    requires i < |rows|
    ensures Verify(h, rows[i := rows[i].(unhashed := text)]) == Verify(h, rows)
  {
    ScanIgnores(h, rows, i, text, None, 0, 0);
  }

  // ----- Replacing a row altogether -----

  /** The hash the verifier expects to be pointed at after row `i`, having expected `prev` there. */
  function Expected(r: Row, prev: Option<Digest>): Option<Digest> {
    if r.hash.Some? then r.hash else if r.prev.None? then None else prev
  }

  /** The verifier passes over `r` when it expects `prev`. */
  predicate Passes(h: HashFn, r: Row, prev: Option<Digest>) {
    r.hash.Some? ==>
      h(r.prev, r.payload) == r.hash.value && (prev.Some? && r.prev.Some? ==> r.prev == prev)
  }

  lemma ScanStep(h: HashFn, rows: seq<Row>, prev: Option<Digest>, checked: nat, epoch: nat)
    requires rows != []
    ensures Scan(h, rows, prev, checked, epoch).Accepted()
       <==> Passes(h, rows[0], prev) && Scan(h, rows[1..], Expected(rows[0], prev), 0, 0).Accepted()
  {
    var r := rows[0];
    if Passes(h, r, prev) {
      var checked' := if r.hash.Some? then checked + 1 else checked;
      var epoch' := if r.hash.None? then (if r.prev.None? then epoch + 1 else epoch)
                    else if prev.None? && r.prev.Some? then epoch + 1 else epoch;
      AcceptanceIgnoresCounts(h, rows[1..], Expected(r, prev), checked', epoch', 0, 0);
    }
  }

  lemma {:induction false} AcceptanceIgnoresCounts(h: HashFn, rows: seq<Row>, prev: Option<Digest>, checked: nat,
                                                   epoch: nat, checked': nat, epoch': nat)
    ensures Scan(h, rows, prev, checked, epoch).Accepted() <==> Scan(h, rows, prev, checked', epoch').Accepted()
    decreases |rows|
  {
    if rows != [] && Passes(h, rows[0], prev) {
      var r := rows[0];
      var c := if r.hash.Some? then 1 else 0;
      var e := if r.hash.None? then (if r.prev.None? then 1 else 0) else if prev.None? && r.prev.Some? then 1 else 0;
      AcceptanceIgnoresCounts(h, rows[1..], Expected(r, prev), checked + c, epoch + e, checked' + c, epoch' + e);
    }
  }

  /** From anywhere, a well-chained log is accepted exactly when its first row is. */
  lemma WellChainedPasses(h: HashFn, rows: seq<Row>, prev: Option<Digest>)
    requires WellChained(h, rows)
    ensures Scan(h, rows, prev, 0, 0).Accepted() <==> (rows == [] || Passes(h, rows[0], prev))
  {
    if rows != [] {
      ScanFromElsewhere(h, rows, prev, 0, 0);
      assert WellChainedAt(h, rows, 0);
    }
  }

  lemma {:induction false} ScanReplaced(h: HashFn, rows: seq<Row>, i: nat, x: Row, prev: Option<Digest>)
    requires WellChained(h, rows) && i < |rows|
    requires rows[0].hash.Some? && prev.Some? ==> rows[0].prev == prev
    ensures Scan(h, rows[i := x], prev, 0, 0).Accepted()
       <==> var before := if i == 0 then prev else rows[i - 1].hash;
            && Passes(h, x, before)
            && (i + 1 < |rows| ==> Passes(h, rows[i + 1], Expected(x, before)))
    decreases |rows|
  {
    var edited := rows[i := x];
    FirstTwo(h, rows);
    ScanStep(h, edited, prev, 0, 0);
    if i == 0 {
      assert edited[1..] == rows[1..];
      WellChainedPasses(h, rows[1..], Expected(x, prev));
    } else {
      assert edited[1..] == rows[1..][i - 1 := x];
      assert Expected(rows[0], prev) == rows[0].hash;
      ScanReplaced(h, rows[1..], i - 1, x, rows[0].hash);
    }
  }

  /** Exactly which row can stand in for row `i` of an honest log unnoticed: it must be passed over after the row
      before, and leave the verifier with an expectation that the row behind it meets. */
  lemma ReplacementIsAcceptedIff(h: HashFn, events: seq<Event>, i: nat, x: Row)
    requires i < |Run(h, [], 1, events)|
    ensures var rows := Run(h, [], 1, events);
            var before := if i == 0 then None else rows[i - 1].hash;
            && (Verify(h, rows[i := x]).Accepted()
                <==> Passes(h, x, before) && (i + 1 < |rows| ==> Passes(h, rows[i + 1], Expected(x, before))))
  {
    RunIsWellChained(h, [], 1, events);
    ScanReplaced(h, Run(h, [], 1, events), i, x, None);
  }

  /** So a row whose two hash columns are emptied can say anything: it reads as written without chaining. */
  lemma EmptiedRowIsAccepted(h: HashFn, events: seq<Event>, i: nat, id: nat, payload: string, unhashed: string)
    requires i < |Run(h, [], 1, events)|
    ensures Verify(h, Run(h, [], 1, events)[i := Row(id, payload, unhashed, None, None)]).Accepted()
  {
    var rows := Run(h, [], 1, events);
    ReplacementIsAcceptedIff(h, events, i, Row(id, payload, unhashed, None, None));
    RunIsWellChained(h, [], 1, events);
    if i + 1 < |rows| {
      assert WellChainedAt(h, rows, i + 1);
    }
  }

  /** In a fully chained log a stand-in that keeps its own hash column is accepted only with the old payload and
      the old place in the chain, unless it drops its pointer. */
  lemma ChainedStandIn(h: HashFn, rows: seq<Row>, i: nat, x: Row)
    requires Injective(h) && LinkedRun(h, rows) && 0 < i && i + 1 < |rows|
    requires x.hash.Some? && x.prev.Some?
    ensures Verify(h, rows[i := x]).Accepted()
       <==> x.payload == rows[i].payload && x.prev == rows[i].prev && x.hash == rows[i].hash
  {
    assert WellChainedAt(h, rows, i) && WellChainedAt(h, rows, i + 1);
    assert rows[i - 1].hash.Some? && rows[i].hash.Some? && rows[i + 1].hash.Some?;
    ScanReplaced(h, rows, i, x, None);
  }
}
