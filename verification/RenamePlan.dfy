/**
 Preflight of RENAME chains (src/sql/ddl.rs). The preflight looks up each source and destination in an
 overlay of what the earlier renames did, and asks the server only about names the overlay does not
 hold. The server executes the chain left to right on its catalog.
*/
module RenamePlan {
  import opened Wrappers
  import opened SqlText

  /** A table as written; the database may be left to the connection. */
  datatype TableRef = TableRef(database: Option<string>, table: string)

  datatype Rename = Rename(src: TableRef, dst: TableRef)

  datatype Verdict =
    | Accepted
    | NoDatabase(table: string)
    | NotFound(id: TableId)
    | Conflict(id: TableId)

  function Resolve(ref: TableRef, fallback: Option<string>): Option<TableId> {
    match ref.database
    case Some(db) => Some(TableId(db, ref.table))
    case None => if fallback.Some? then Some(TableId(fallback.value, ref.table)) else None
  }

  // ----- The overlay, as the code keeps it -----

  type Overlay = seq<(TableId, bool)>

  function Retain(known: Overlay, id: TableId): Overlay {
    if known == [] then []
    else if known[0].0 == id then Retain(known[1..], id)
    else [known[0]] + Retain(known[1..], id)
  }

  /** The first entry for `id`. */
  function Find(known: Overlay, id: TableId): Option<bool> {
    if known == [] then None
    else if known[0].0 == id then Some(known[0].1)
    else Find(known[1..], id)
  }

  function Present(known: Overlay, catalog: set<TableId>, id: TableId): bool {
    match Find(known, id)
    case Some(p) => p
    case None => id in catalog
  }

  function Record(known: Overlay, m: Move): Overlay {
    Retain(known, m.src) + [(m.src, false), (m.dst, true)]
  }

  /** The preflight's loop over the chain (src/sql/ddl.rs:189-248). */
  method PreflightRename(renames: seq<Rename>, fallback: Option<string>, catalog: set<TableId>)
    returns (verdict: Verdict)
    ensures verdict == OverlayVerdict(renames, fallback, catalog, [])
  {
    var known: Overlay := [];
    for k := 0 to |renames|
      invariant OverlayVerdict(renames, fallback, catalog, []) == OverlayVerdict(renames[k..], fallback, catalog, known)
    {
      assert renames[k..][1..] == renames[k + 1..];
      var src, dst := Resolve(renames[k].src, fallback), Resolve(renames[k].dst, fallback);
      if src.None? {
        return NoDatabase(renames[k].src.table);
      }
      if dst.None? {
        return NoDatabase(renames[k].dst.table);
      }
      if !Present(known, catalog, src.value) {
        return NotFound(src.value);
      }
      if Present(known, catalog, dst.value) {
        return Conflict(dst.value);
      }
      ghost var before := known;
      known := Retain(known, src.value);
      known := known + [(src.value, false)];
      known := known + [(dst.value, true)];
      assert known == Record(before, Move(src.value, dst.value));
    }
    return Accepted;
  }

  function OverlayVerdict(renames: seq<Rename>, fallback: Option<string>, catalog: set<TableId>,
                          known: Overlay): Verdict
    decreases |renames|
  {
    if renames == [] then Accepted else
      var src, dst := Resolve(renames[0].src, fallback), Resolve(renames[0].dst, fallback);
      if src.None? then NoDatabase(renames[0].src.table)
      else if dst.None? then NoDatabase(renames[0].dst.table)
      else if !Present(known, catalog, src.value) then NotFound(src.value)
      else if Present(known, catalog, dst.value) then Conflict(dst.value)
      else OverlayVerdict(renames[1..], fallback, catalog, Record(known, Move(src.value, dst.value)))
  }

  // ----- The server -----

  datatype Move = Move(src: TableId, dst: TableId)

  function Apply(catalog: set<TableId>, m: Move): set<TableId> {
    catalog - {m.src} + {m.dst}
  }

  /** Left-to-right execution on the catalog. */
  function ServerVerdict(renames: seq<Rename>, fallback: Option<string>, catalog: set<TableId>): Verdict
    decreases |renames|
  {
    if renames == [] then Accepted else
      var src, dst := Resolve(renames[0].src, fallback), Resolve(renames[0].dst, fallback);
      if src.None? then NoDatabase(renames[0].src.table)
      else if dst.None? then NoDatabase(renames[0].dst.table)
      else if src.value !in catalog then NotFound(src.value)
      else if dst.value in catalog then Conflict(dst.value)
      else ServerVerdict(renames[1..], fallback, Apply(catalog, Move(src.value, dst.value)))
  }

  // ----- The moves made so far -----

  function OverlayOf(done: seq<Move>): Overlay {
    if done == [] then [] else Record(OverlayOf(done[..|done| - 1]), done[|done| - 1])
  }

  function After(catalog: set<TableId>, done: seq<Move>): set<TableId> {
    if done == [] then catalog else Apply(After(catalog, done[..|done| - 1]), done[|done| - 1])
  }

  /** Each move found its source and an empty place for its destination. */
  ghost predicate Feasible(catalog: set<TableId>, done: seq<Move>) {
    done != [] ==>
      var before := After(catalog, done[..|done| - 1]);
      && Feasible(catalog, done[..|done| - 1])
      && done[|done| - 1].src in before && done[|done| - 1].dst !in before
  }

  predicate Freed(done: seq<Move>, id: TableId) {
    done != [] && (done[|done| - 1].src == id || Freed(done[..|done| - 1], id))
  }

  predicate Filled(done: seq<Move>, id: TableId) {
    done != [] && (done[|done| - 1].dst == id || Filled(done[..|done| - 1], id))
  }

  /** `id` was freed by one move, filled again by a later one and not freed since. */
  predicate Stale(done: seq<Move>, id: TableId) {
    && done != []
    && done[|done| - 1].src != id
    && (if done[|done| - 1].dst == id then Freed(done[..|done| - 1], id) else Stale(done[..|done| - 1], id))
  }

  /** No rename of the rest of the chain looks up a stale name. This depends on the text of the
      statement only. */
  predicate NoStaleLookup(renames: seq<Rename>, fallback: Option<string>, done: seq<Move>)
    decreases |renames|
  {
    if renames == [] then true else
      var src, dst := Resolve(renames[0].src, fallback), Resolve(renames[0].dst, fallback);
      if src.None? || dst.None? then true
      else
        && !Stale(done, src.value) && !Stale(done, dst.value)
        && NoStaleLookup(renames[1..], fallback, done + [Move(src.value, dst.value)])
  }

  // ----- What the overlay holds -----

  lemma FindRetain(known: Overlay, id: TableId, other: TableId)
    ensures Find(Retain(known, id), other) == if other == id then None else Find(known, other)
  {
  }

  lemma FindConcat(a: Overlay, b: Overlay, id: TableId)
    ensures Find(a + b, id) == if Find(a, id).Some? then Find(a, id) else Find(b, id)
  {
    if a == [] {
      assert a + b == b;
    } else {
      assert (a + b)[1..] == a[1..] + b;
    }
  }

  lemma FindPair(src: TableId, dst: TableId, id: TableId)
    ensures Find([(src, false), (dst, true)], id) ==
            if id == src then Some(false) else if id == dst then Some(true) else None
  {
    var tail := [(src, false), (dst, true)];
    assert tail[1..] == [(dst, true)];
    assert Find(tail[1..], id) == if id == dst then Some(true) else Find(tail[1..][1..], id);
  }

  /** Once freed, a name reads absent for good; otherwise a filled name reads present. */
  lemma {:induction false} OverlayHolds(done: seq<Move>, id: TableId)
    ensures Find(OverlayOf(done), id) ==
            if Freed(done, id) then Some(false) else if Filled(done, id) then Some(true) else None
    decreases |done|
  {
    if done != [] {
      var before, m := done[..|done| - 1], done[|done| - 1];
      OverlayHolds(before, id);
      var tail := [(m.src, false), (m.dst, true)];
      FindConcat(Retain(OverlayOf(before), m.src), tail, id);
      FindRetain(OverlayOf(before), m.src, id);
      FindPair(m.src, m.dst, id);
    }
  }

  /** What really is in the catalog after a feasible prefix. */
  lemma {:induction false} CatalogHolds(catalog: set<TableId>, done: seq<Move>, id: TableId)
    requires Feasible(catalog, done)
    ensures id in After(catalog, done) <==>
            if Freed(done, id) then Stale(done, id) else Filled(done, id) || id in catalog
    ensures Stale(done, id) ==> Freed(done, id)
    decreases |done|
  {
    if done != [] {
      CatalogHolds(catalog, done[..|done| - 1], id);
    }
  }

  /** After any feasible prefix the overlay's answer about a name is the catalog's answer, except
      exactly for stale names, which it takes for absent. */
  lemma OverlayAgreesIff(catalog: set<TableId>, done: seq<Move>, id: TableId)
    requires Feasible(catalog, done)
    ensures Present(OverlayOf(done), catalog, id) == (id in After(catalog, done)) <==> !Stale(done, id)
    ensures Stale(done, id) ==> id in After(catalog, done)
  {
    OverlayHolds(done, id);
    CatalogHolds(catalog, done, id);
  }

  lemma OneMore(catalog: set<TableId>, done: seq<Move>, m: Move)
    ensures OverlayOf(done + [m]) == Record(OverlayOf(done), m)
    ensures After(catalog, done + [m]) == Apply(After(catalog, done), m)
    ensures Feasible(catalog, done + [m]) <==>
            Feasible(catalog, done) && m.src in After(catalog, done) && m.dst !in After(catalog, done)
  {
    assert (done + [m])[..|done|] == done;
  }

  // ----- The two verdicts -----

  /** Without stale lookups the preflight gives the server's own verdict: the same refusals at the
      same rename, and acceptance exactly when the whole chain would run. */
  lemma {:induction false} VerdictsAgree(renames: seq<Rename>, fallback: Option<string>, catalog: set<TableId>,
                                         done: seq<Move>)
    requires Feasible(catalog, done) && NoStaleLookup(renames, fallback, done)
    ensures OverlayVerdict(renames, fallback, catalog, OverlayOf(done)) ==
            ServerVerdict(renames, fallback, After(catalog, done))
    decreases |renames|
  {
    if renames != [] {
      var src, dst := Resolve(renames[0].src, fallback), Resolve(renames[0].dst, fallback);
      if src.Some? && dst.Some? {
        var m := Move(src.value, dst.value);
        OverlayAgreesIff(catalog, done, m.src);
        OverlayAgreesIff(catalog, done, m.dst);
        OneMore(catalog, done, m);
        if m.src in After(catalog, done) && m.dst !in After(catalog, done) {
          VerdictsAgree(renames[1..], fallback, catalog, done + [m]);
        }
      }
    }
  }

  /** A stale lookup never goes unnoticed by one side only: whichever side accepts the chain, the
      other refuses it. */
  lemma {:induction false} StaleSplitsVerdicts(renames: seq<Rename>, fallback: Option<string>,
                                               catalog: set<TableId>, done: seq<Move>)
    requires Feasible(catalog, done) && !NoStaleLookup(renames, fallback, done)
    ensures !(OverlayVerdict(renames, fallback, catalog, OverlayOf(done)).Accepted?
              && ServerVerdict(renames, fallback, After(catalog, done)).Accepted?)
    decreases |renames|
  {
    var src, dst := Resolve(renames[0].src, fallback), Resolve(renames[0].dst, fallback);
    var m := Move(src.value, dst.value);
    OverlayAgreesIff(catalog, done, m.src);
    OverlayAgreesIff(catalog, done, m.dst);
    OneMore(catalog, done, m);
    if !Stale(done, m.src) && !Stale(done, m.dst)
       && m.src in After(catalog, done) && m.dst !in After(catalog, done) {
      StaleSplitsVerdicts(renames[1..], fallback, catalog, done + [m]);
    }
  }

  /** The exact reach of the rename preflight, for every statement and catalog: as soon as one side
      accepts, the preflight and the server agree if and only if no stale name is looked up. */
  lemma PreflightAgreesIff(renames: seq<Rename>, fallback: Option<string>, catalog: set<TableId>)
    ensures var pre := OverlayVerdict(renames, fallback, catalog, []);
            var server := ServerVerdict(renames, fallback, catalog);
            && (NoStaleLookup(renames, fallback, []) ==> pre == server)
            && (pre.Accepted? || server.Accepted? ==>
                  ((pre.Accepted? <==> server.Accepted?) <==> NoStaleLookup(renames, fallback, [])))
  {
    if NoStaleLookup(renames, fallback, []) {
      VerdictsAgree(renames, fallback, catalog, []);
    } else {
      StaleSplitsVerdicts(renames, fallback, catalog, []);
    }
  }

  // ----- Chains that use each table once in each role -----

  /** Each table is a source at most once and a destination at most once (swaps and cycles included). */
  ghost predicate OnceInEachRole(renames: seq<Rename>, fallback: Option<string>) {
    forall i, j :: 0 <= i < j < |renames| ==>
      && Resolve(renames[i].src, fallback) != Resolve(renames[j].src, fallback)
      && Resolve(renames[i].dst, fallback) != Resolve(renames[j].dst, fallback)
  }

  ghost predicate UnusedLater(renames: seq<Rename>, fallback: Option<string>, done: seq<Move>) {
    forall k, id :: 0 <= k < |renames| ==>
      && (Freed(done, id) ==> Resolve(renames[k].src, fallback) != Some(id))
      && (Filled(done, id) ==> Resolve(renames[k].dst, fallback) != Some(id))
  }

  lemma StaleWasBoth(done: seq<Move>, id: TableId)
    ensures Stale(done, id) ==> Freed(done, id) && Filled(done, id)
  {
  }

  lemma {:induction false} OnceMeansNoStale(renames: seq<Rename>, fallback: Option<string>, done: seq<Move>)
    requires OnceInEachRole(renames, fallback) && UnusedLater(renames, fallback, done)
    ensures NoStaleLookup(renames, fallback, done)
    decreases |renames|
  {
    if renames != [] {
      var src, dst := Resolve(renames[0].src, fallback), Resolve(renames[0].dst, fallback);
      if src.Some? && dst.Some? {
        var m := Move(src.value, dst.value);
        StaleWasBoth(done, m.src);
        StaleWasBoth(done, m.dst);
        assert (done + [m])[..|done|] == done;
        assert Resolve(renames[0].src, fallback) == Some(m.src);
        forall k, id | 0 <= k < |renames[1..]|
          ensures Freed(done + [m], id) ==> Resolve(renames[1..][k].src, fallback) != Some(id)
          ensures Filled(done + [m], id) ==> Resolve(renames[1..][k].dst, fallback) != Some(id)
        {
          assert renames[1..][k] == renames[k + 1];
        }
        OnceMeansNoStale(renames[1..], fallback, done + [m]);
      }
    }
  }

  /** For such chains the preflight's verdict is the server's, on every catalog. */
  lemma OnceInEachRoleIsExact(renames: seq<Rename>, fallback: Option<string>, catalog: set<TableId>)
    requires OnceInEachRole(renames, fallback)
    ensures OverlayVerdict(renames, fallback, catalog, []) == ServerVerdict(renames, fallback, catalog)
  {
    OnceMeansNoStale(renames, fallback, []);
    PreflightAgreesIff(renames, fallback, catalog);
  }

  // ----- Both ways it goes wrong otherwise -----

  /** A rename that is fine on both sides is passed over by both. */
  lemma PassOver(renames: seq<Rename>, catalog: set<TableId>, done: seq<Move>, m: Move)
    requires renames != [] && Feasible(catalog, done)
    requires Resolve(renames[0].src, None) == Some(m.src) && Resolve(renames[0].dst, None) == Some(m.dst)
    requires m.src in After(catalog, done) && m.dst !in After(catalog, done)
    requires !Stale(done, m.src) && !Stale(done, m.dst)
    ensures Feasible(catalog, done + [m])
    ensures OverlayVerdict(renames, None, catalog, OverlayOf(done)) ==
            OverlayVerdict(renames[1..], None, catalog, OverlayOf(done + [m]))
    ensures ServerVerdict(renames, None, After(catalog, done)) ==
            ServerVerdict(renames[1..], None, After(catalog, done + [m]))
  {
    OverlayAgreesIff(catalog, done, m.src);
    OverlayAgreesIff(catalog, done, m.dst);
    OneMore(catalog, done, m);
  }

  function InDb(table: string): TableRef {
    TableRef(Some("d"), table)
  }

  function Id(table: string): TableId {
    TableId("d", table)
  }

  /** a->t, b->a and then one more rename, on a catalog with a and b but without t: both sides come
      to the third rename, where "a" is stale. */
  lemma ToThirdRename(third: Rename, catalog: set<TableId>)
    requires Id("a") in catalog && Id("b") in catalog && Id("t") !in catalog
    ensures var chain := [Rename(InDb("a"), InDb("t")), Rename(InDb("b"), InDb("a")), third];
            var done := [Move(Id("a"), Id("t")), Move(Id("b"), Id("a"))];
            && Feasible(catalog, done)
            && OverlayVerdict(chain, None, catalog, []) == OverlayVerdict([third], None, catalog, OverlayOf(done))
            && ServerVerdict(chain, None, catalog) == ServerVerdict([third], None, After(catalog, done))
            && After(catalog, done) == catalog - {Id("b")} + {Id("t"), Id("a")}
            && (forall id :: Stale(done, id) <==> id == Id("a"))
  {
    var a, b, t := Id("a"), Id("b"), Id("t");
    assert a.table[0] == 'a' && b.table[0] == 'b' && t.table[0] == 't';
    var chain := [Rename(InDb("a"), InDb("t")), Rename(InDb("b"), InDb("a")), third];
    var m1, m2 := Move(a, t), Move(b, a);
    PassOver(chain, catalog, [], m1);
    assert [] + [m1] == [m1] && [m1] + [m2] == [m1, m2] && [m1, m2][..1] == [m1];
    OneMore(catalog, [], m1);
    OneMore(catalog, [m1], m2);
    assert forall id :: !Stale([m1], id);
    PassOver(chain[1..], catalog, [m1], m2);
    assert chain[1..][1..] == [third];
  }

  /** a->t, b->a, a->c runs on the server and is refused by the preflight. */
  lemma RefusesRunnableChain()
    ensures var chain := [Rename(InDb("a"), InDb("t")), Rename(InDb("b"), InDb("a")), Rename(InDb("a"), InDb("c"))];
            && ServerVerdict(chain, None, {Id("a"), Id("b")}) == Accepted
            && OverlayVerdict(chain, None, {Id("a"), Id("b")}, []) == NotFound(Id("a"))
  {
    var catalog, done := {Id("a"), Id("b")}, [Move(Id("a"), Id("t")), Move(Id("b"), Id("a"))];
    assert "a"[0] == 'a' && "b"[0] == 'b' && "c"[0] == 'c' && "t"[0] == 't';
    ToThirdRename(Rename(InDb("a"), InDb("c")), catalog);
    OverlayAgreesIff(catalog, done, Id("a"));
  }

  /** a->t, b->a, c->a is accepted by the preflight and fails on the server. */
  lemma AcceptsFailingChain()
    ensures var chain := [Rename(InDb("a"), InDb("t")), Rename(InDb("b"), InDb("a")), Rename(InDb("c"), InDb("a"))];
            && OverlayVerdict(chain, None, {Id("a"), Id("b"), Id("c")}, []) == Accepted
            && ServerVerdict(chain, None, {Id("a"), Id("b"), Id("c")}) == Conflict(Id("a"))
  {
    var catalog, done := {Id("a"), Id("b"), Id("c")}, [Move(Id("a"), Id("t")), Move(Id("b"), Id("a"))];
    assert "a"[0] == 'a' && "b"[0] == 'b' && "c"[0] == 'c' && "t"[0] == 't';
    ToThirdRename(Rename(InDb("c"), InDb("a")), catalog);
    OverlayAgreesIff(catalog, done, Id("a"));
    OverlayAgreesIff(catalog, done, Id("c"));
  }
}
