/**
 The bounded line adapter in front of the JSON-RPC codec (src/mcp/limits.rs).

 A byte stream arrives in arbitrary pieces and leaves in arbitrary pieces. Every line whose body
 fits the limit passes through untouched; every other line is dropped whole. `Kept` states that in
 a few lines over a complete stream; `LineLimited` is the four-phase machine over one fixed buffer.
*/
module LineLimits {

  newtype Byte = x: int | 0 <= x < 256

  const NEWLINE: Byte := 10
  const CHUNK: nat := 8 * 1024

  // ----- What the adapter promises about a whole stream -----

  predicate NoNewline(s: seq<Byte>) {
    forall k :: 0 <= k < |s| ==> s[k] != NEWLINE
  }

  /** Index of the first newline of `s`, or |s| when it has none. */
  function FirstNewline(s: seq<Byte>): (i: nat)
    ensures i <= |s| && forall k :: 0 <= k < i ==> s[k] != NEWLINE
    ensures i < |s| ==> s[i] == NEWLINE
  {
    if s == [] || s[0] == NEWLINE then 0 else 1 + FirstNewline(s[1..])
  }

  /** The lines (terminator included) with at most `limit` bytes before the newline, in order, and
      the unterminated tail if that has at most `limit` bytes. */
  function Kept(s: seq<Byte>, limit: nat): seq<Byte>
    decreases |s|
  {
    var i := FirstNewline(s);
    if i == |s| then
      if |s| <= limit then s else []
    else
      (if i <= limit then s[..i + 1] else []) + Kept(s[i + 1..], limit)
  }

  /** How many lines (the tail included) are longer than `limit`. */
  function Oversized(s: seq<Byte>, limit: nat): nat
    decreases |s|
  {
    var i := FirstNewline(s);
    (if i > limit then 1 else 0) + (if i == |s| then 0 else Oversized(s[i + 1..], limit))
  }

  /** What follows the first newline; nothing if there is none. */
  function AfterNewline(s: seq<Byte>): seq<Byte> {
    var i := FirstNewline(s);
    if i == |s| then [] else s[i + 1..]
  }

  lemma FirstNewlineConcat(a: seq<Byte>, b: seq<Byte>)
    ensures FirstNewline(a + b) ==
            if NoNewline(a) then |a| + FirstNewline(b) else FirstNewline(a)
  {
    var i, j, k := FirstNewline(a), FirstNewline(b), FirstNewline(a + b);
    if NoNewline(a) {
      assert j < |b| ==> (a + b)[|a| + j] == NEWLINE;
      assert |a| <= k < |a| + |b| ==> b[k - |a|] == NEWLINE;
    } else {
      assert (a + b)[i] == a[i] == NEWLINE;
    }
  }

  lemma KeptNothing(limit: nat)
    ensures Kept([], limit) == [] && Oversized([], limit) == 0 && AfterNewline([]) == []
  {
  }

  lemma KeptUnfold(s: seq<Byte>, limit: nat)
    ensures var i := FirstNewline(s);
            && (i == |s| ==> Kept(s, limit) == (if i <= limit then s else []))
            && (i == |s| ==> Oversized(s, limit) == (if i > limit then 1 else 0))
            && (i < |s| && i > limit ==> Kept(s, limit) == Kept(s[i + 1..], limit))
            && (i < |s| && i > limit ==> Oversized(s, limit) == 1 + Oversized(s[i + 1..], limit))
  {
  }

  /** A complete line at the front of the stream is decided on its own. */
  lemma KeptLine(body: seq<Byte>, rest: seq<Byte>, limit: nat)
    requires NoNewline(body)
    ensures Kept(body + [NEWLINE] + rest, limit) ==
            (if |body| <= limit then body + [NEWLINE] else []) + Kept(rest, limit)
    ensures Oversized(body + [NEWLINE] + rest, limit) ==
            (if |body| > limit then 1 else 0) + Oversized(rest, limit)
  {
    var s := body + [NEWLINE] + rest;
    assert s == body + ([NEWLINE] + rest);
    FirstNewlineConcat(body, [NEWLINE] + rest);
    assert FirstNewline(s) == |body|;
    assert s[..|body| + 1] == body + [NEWLINE] && s[|body| + 1..] == rest;
  }

  /** An unterminated tail within the limit passes. */
  lemma KeptTail(a: seq<Byte>, limit: nat)
    requires |a| <= limit && NoNewline(a)
    ensures Kept(a, limit) == a && Oversized(a, limit) == 0
    ensures Kept([], limit) == [] && Oversized([], limit) == 0
  {
    KeptNothing(limit);
  }

  /** More than `limit` bytes without a newline: everything up to the next newline is lost. */
  lemma KeptOversized(a: seq<Byte>, rest: seq<Byte>, limit: nat)
    requires |a| > limit && NoNewline(a)
    ensures Kept(a + rest, limit) == Kept(AfterNewline(rest), limit)
    ensures Oversized(a + rest, limit) == 1 + Oversized(AfterNewline(rest), limit)
  {
    hide Kept, Oversized, FirstNewline;
    FirstNewlineConcat(a, rest);
    KeptNothing(limit);
    KeptUnfold(a + rest, limit);
    var j := FirstNewline(rest);
    assert j < |rest| ==> (a + rest)[|a| + j + 1..] == rest[j + 1..];
  }

  lemma AfterNewlineConcat(a: seq<Byte>, b: seq<Byte>)
    ensures AfterNewline(a + b) == if NoNewline(a) then AfterNewline(b) else AfterNewline(a) + b
  {
    FirstNewlineConcat(a, b);
    var i, j := FirstNewline(a), FirstNewline(b);
    if NoNewline(a) {
      assert j < |b| ==> (a + b)[|a| + j + 1..] == b[j + 1..];
    } else {
      assert (a + b)[i + 1..] == a[i + 1..] + b;
    }
  }

  lemma AfterNewlineAt(a: seq<Byte>, i: nat)
    requires i < |a| && a[i] == NEWLINE && NoNewline(a[..i])
    ensures AfterNewline(a) == a[i + 1..] && !NoNewline(a)
  {
    assert forall k :: 0 <= k < i ==> a[k] == a[..i][k];
    assert FirstNewline(a) == i;
  }

  /** The stream splits at every line end: what one line is never depends on its neighbours. */
  lemma {:induction false} KeptSplitsAtLineEnds(a: seq<Byte>, b: seq<Byte>, limit: nat)
    requires a != [] ==> a[|a| - 1] == NEWLINE
    ensures Kept(a + b, limit) == Kept(a, limit) + Kept(b, limit)
    ensures Oversized(a + b, limit) == Oversized(a, limit) + Oversized(b, limit)
    decreases |a|
  {
    hide Kept, Oversized;
    if a == [] {
      assert a + b == b;
      KeptNothing(limit);
    } else {
      var i := FirstNewline(a);
      var body, more := a[..i], a[i + 1..];
      assert a == body + [NEWLINE] + more && a + b == body + [NEWLINE] + (more + b);
      KeptLine(body, more, limit);
      KeptLine(body, more + b, limit);
      KeptSplitsAtLineEnds(more, b, limit);
    }
  }

  /** Nothing over the limit is left in the output, and filtering again changes nothing. */
  lemma {:induction false} KeptIsCompliant(s: seq<Byte>, limit: nat)
    ensures Oversized(Kept(s, limit), limit) == 0
    ensures Kept(Kept(s, limit), limit) == Kept(s, limit)
    decreases |s|
  {
    var i := FirstNewline(s);
    if i == |s| {
      KeptNothing(limit);
    } else {
      KeptIsCompliant(s[i + 1..], limit);
      var line := s[..i] + [NEWLINE];
      assert s[..i + 1] == line;
      if i <= limit {
        KeptLine(s[..i], Kept(s[i + 1..], limit), limit);
      } else {
        assert Kept(s, limit) == Kept(s[i + 1..], limit);
      }
    }
  }

  /** A stream passes verbatim exactly when no line of it is over the limit. */
  lemma {:induction false} VerbatimIff(s: seq<Byte>, limit: nat)
    ensures Kept(s, limit) == s <==> Oversized(s, limit) == 0
    ensures |Kept(s, limit)| <= |s|
    decreases |s|
  {
    var i := FirstNewline(s);
    if i < |s| {
      VerbatimIff(s[i + 1..], limit);
      var tail := Kept(s[i + 1..], limit);
      assert s == s[..i + 1] + s[i + 1..];
      if i <= limit {
        assert (s[..i + 1] + tail)[i + 1..] == tail;
      }
    }
  }

  // ----- The upstream reader -----

  /** One scheduled answer of the upstream: not ready, an I/O error, or up to `n` bytes. */
  datatype Step = Stall | Fail | Give(n: nat)

  datatype Poll = Ready | Pending | Error

  /** The bytes still to come and an arbitrary schedule of how they are handed out. Once the
      schedule is used up, every read gets as much as fits. */
  class Upstream {
    var rest: seq<Byte>
    var schedule: seq<Step>
    var polls: nat

    constructor (stream: seq<Byte>, schedule: seq<Step>)
      ensures rest == stream && this.schedule == schedule && polls == 0
    {
      rest, this.schedule, polls := stream, schedule, 0;
    }

    /** Reads into `window[at..]`. Zero bytes from a ready read means the stream has ended. */
    method PollInto(window: array<Byte>, at: nat) returns (poll: Poll, n: nat)
      requires at < window.Length
      modifies this, window
      ensures n <= |old(rest)| && at + n <= window.Length
      ensures rest == old(rest)[n..] && polls == old(polls) + 1
      ensures window[..at] == old(window[..at]) && window[at..at + n] == old(rest)[..n]
      ensures poll.Ready? ==> (n == 0 <==> old(rest) == []) && |schedule| <= |old(schedule)|
      ensures !poll.Ready? ==> n == 0 && |schedule| < |old(schedule)|
    {
      var step := if schedule == [] then Give(|rest|) else schedule[0];
      schedule := if schedule == [] then [] else schedule[1..];
      polls := polls + 1;
      n := 0;
      match step {
        case Stall => poll := Pending;
        case Fail => poll := Error;
        case Give(k) =>
          poll := Ready;
          if rest != [] {
            n := if k == 0 then 1 else if k < |rest| then k else |rest|;
            if n > window.Length - at { n := window.Length - at; }
            var data := rest;
            forall i | 0 <= i < n {
              window[at + i] := data[i];
            }
            rest := rest[n..];
          }
      }
    }
  }

  // ----- The adapter -----

  datatype Phase =
    | Filling
    | Draining(drain: nat)
    | Discarding
    | Eof

  /** `dst[..n] := src[from..from + n]`, also when both are the same array. */
  method CopyDown(src: array<Byte>, from: nat, n: nat, dst: array<Byte>)
    requires from + n <= src.Length && n <= dst.Length
    modifies dst
    ensures dst[..n] == old(src[from..from + n])
  {
    forall i | 0 <= i < n {
      dst[i] := src[from + i];
    }
  }

  /** Position of the first newline in `a[lo..hi]`, or `hi`. */
  method FindNewline(a: array<Byte>, lo: nat, hi: nat) returns (i: nat)
    requires lo <= hi <= a.Length
    ensures lo <= i <= hi && (forall k :: lo <= k < i ==> a[k] != NEWLINE)
    ensures i < hi ==> a[i] == NEWLINE
  {
    i := lo;
    while i < hi && a[i] != NEWLINE
      invariant lo <= i <= hi && forall k :: lo <= k < i ==> a[k] != NEWLINE
    {
      i := i + 1;
    }
  }

  class LineLimited {
    const inner: Upstream
    const limit: nat
    const buf: array<Byte>
    const scratch: array<Byte>
    var fill: nat
    var scanned: nat
    var total: nat
    var phase: Phase
    var dropped: nat

    ghost predicate Valid()
      reads this, buf, inner
    {
      && buf.Length == limit + 1 && buf != scratch
      && scratch.Length == (if CHUNK < limit + 1 then CHUNK else limit + 1)
      && scanned <= fill <= limit + 1
      && NoNewline(buf[..scanned])
      && (phase.Draining? ==> phase.drain < total <= fill)
      && (phase.Discarding? ==> fill == 0)
      && (phase.Eof? ==> inner.rest == [])
    }

    /** Every byte the adapter will still hand downstream. */
    ghost function Owed(): seq<Byte>
      requires Valid()
      reads this, buf, inner
    {
      match phase
      case Filling => Kept(buf[..fill] + inner.rest, limit)
      case Draining(drain) => buf[drain..total] + Kept(buf[total..fill] + inner.rest, limit)
      case Discarding => Kept(AfterNewline(inner.rest), limit)
      case Eof => []
    }

    /** Lines dropped so far and lines that will still be dropped. */
    ghost function Drops(): nat
      requires Valid()
      reads this, buf, inner
    {
      dropped +
      match phase
      case Filling => Oversized(buf[..fill] + inner.rest, limit)
      case Draining(_) => Oversized(buf[total..fill] + inner.rest, limit)
      case Discarding => Oversized(AfterNewline(inner.rest), limit)
      case Eof => 0
    }

    /** A complete line, or the rest of one, can be emitted without reading upstream. */
    ghost predicate LineBuffered()
      requires Valid()
      reads this, buf, inner
    {
      phase.Draining? || (phase.Filling? && !NoNewline(buf[..fill]))
    }

    constructor (inner: Upstream, limit: nat)
      ensures Valid() && this.inner == inner && this.limit == limit && dropped == 0
      ensures fresh(buf) && fresh(scratch)
      ensures Owed() == Kept(inner.rest, limit) && Drops() == Oversized(inner.rest, limit)
    {
      this.inner, this.limit := inner, limit;
      buf := new Byte[limit + 1];
      scratch := new Byte[if CHUNK < limit + 1 then CHUNK else limit + 1];
      fill, scanned, total, dropped := 0, 0, 0, 0;
      phase := Filling;
      new;
      assert buf[..fill] + inner.rest == inner.rest;
    }

    /** The Draining arm: emit as much of the accepted line as fits. */
    method Drain(capacity: nat) returns (out: seq<Byte>)
      requires Valid() && phase.Draining? && capacity > 0
      modifies this, buf
      ensures Valid()
      ensures 0 < |out| <= capacity && old(Owed()) == out + Owed() && Drops() == old(Drops())
    {
      hide Kept, Oversized, FirstNewline;
      ghost var line, ahead := buf[phase.drain..total], buf[total..fill];
      var drain := phase.drain;
      var n := if total - drain < capacity then total - drain else capacity;
      out := buf[drain..drain + n];
      if drain + n == total {
        var leftover := fill - total;
        CopyDown(buf, total, leftover, buf);
        fill := leftover;
        scanned := 0;
        phase := Filling;
        assert out == line && buf[..fill] == ahead;
      } else {
        phase := Draining(drain + n);
        assert line == out + buf[drain + n..total];
        assert line + Kept(ahead + inner.rest, limit) ==
               out + (buf[drain + n..total] + Kept(ahead + inner.rest, limit));
      }
    }

    /** Keeps `scratch[from..n]`, which belongs to the following lines, as the new line buffer. */
    method CarryOver(from: nat, n: nat)
      requires Valid() && phase.Discarding? && 0 < from <= n <= scratch.Length
      modifies this, buf, scratch
      ensures Valid() && phase.Filling? && dropped == old(dropped)
      ensures buf[..fill] == old(scratch[from..n])
    {
      var leftover := n - from;
      ghost var kept := scratch[from..n];
      CopyDown(scratch, from, leftover, scratch);
      assert scratch[0..0 + leftover] == scratch[..leftover] == kept;
      CopyDown(scratch, 0, leftover, buf);
      fill := leftover;
      scanned := 0;
      phase := Filling;
    }

    /** The Discarding arm: one upstream read into the scratch window. */
    method Discard() returns (poll: Poll)
      requires Valid() && phase.Discarding?
      modifies this, buf, scratch, inner
      ensures Valid() && Owed() == old(Owed()) && Drops() == old(Drops())
      ensures |inner.schedule| <= |old(inner.schedule)|
      ensures !poll.Ready? ==> |inner.schedule| < |old(inner.schedule)|
      ensures poll.Ready? ==> |inner.rest| < |old(inner.rest)| || (phase.Eof? && inner.rest == old(inner.rest))
    {
      hide Kept, Oversized, FirstNewline, AfterNewline;
      ghost var before := inner.rest;
      var n;
      poll, n := inner.PollInto(scratch, 0);
      if !poll.Ready? { return; }
      if n == 0 {
        KeptNothing(limit);
        phase := Eof;
        return;
      }
      ghost var got := before[..n];
      assert scratch[..n] == scratch[0..n] == got && before == got + inner.rest;
      AfterNewlineConcat(got, inner.rest);
      var i := FindNewline(scratch, 0, n);
      assert NoNewline(got[..i]);
      if i < n {
        AfterNewlineAt(got, i);
        assert scratch[i + 1..n] == got[i + 1..];
        CarryOver(i + 1, n);
      } else {
        assert got[..i] == got;
      }
    }

    /** Scans what is buffered but not yet scanned; a complete line starts draining. */
    method Scan() returns (found: bool)
      requires Valid() && phase.Filling?
      modifies this
      ensures Valid() && Owed() == old(Owed()) && Drops() == old(Drops())
      ensures fill == old(fill) && dropped == old(dropped)
      ensures found == !NoNewline(buf[..fill])
      ensures phase == if found then Draining(0) else Filling
      ensures !found ==> scanned == fill
    {
      hide Kept, Oversized, FirstNewline;
      found := false;
      if scanned < fill {
        var i := FindNewline(buf, scanned, fill);
        assert forall k :: 0 <= k < scanned ==> buf[k] == buf[..scanned][k];
        assert NoNewline(buf[..i]);
        if i < fill {
          ghost var after := buf[i + 1..fill] + inner.rest;
          assert buf[..fill] + inner.rest == buf[..i] + [NEWLINE] + after;
          KeptLine(buf[..i], after, limit);
          assert buf[..fill][i] == NEWLINE;
          total := i + 1;
          phase := Draining(0);
          assert buf[0..total] == buf[..i] + [NEWLINE];
          return true;
        }
        scanned := fill;
      }
    }

    /** Reads once upstream behind the buffered part of an unfinished line. */
    method Refill() returns (poll: Poll)
      requires Valid() && phase.Filling? && fill <= limit && NoNewline(buf[..fill])
      modifies this, buf, inner
      ensures Valid() && Owed() == old(Owed()) && Drops() == old(Drops())
      ensures |inner.schedule| <= |old(inner.schedule)|
      ensures !poll.Ready? ==> phase.Filling? && |inner.schedule| < |old(inner.schedule)|
      ensures poll.Ready? ==> |inner.rest| < |old(inner.rest)| || (!phase.Filling? && inner.rest == old(inner.rest))
    {
      hide Oversized;
      ghost var ahead, before := buf[..fill], inner.rest;
      var n;
      poll, n := inner.PollInto(buf, fill);
      assert buf[..fill] == ahead;
      assert buf[..scanned] == ahead[..scanned];
      if !poll.Ready? { return; }
      if n == 0 {
        KeptTail(ahead, limit);
        assert ahead + before == ahead;
        if fill > 0 {
          total := fill;
          phase := Draining(0);
          assert buf[total..fill] + inner.rest == [];
          assert buf[0..total] + [] == ahead;
        } else {
          phase := Eof;
        }
        return;
      }
      fill := fill + n;
      assert buf[..fill] == ahead + before[..n];
      assert buf[..fill] + inner.rest == ahead + before;
    }

    /** The Filling arm: accept a buffered line, start discarding, or read once upstream. */
    method Fill() returns (poll: Poll)
      requires Valid() && phase.Filling?
      modifies this, buf, inner
      ensures Valid() && Owed() == old(Owed()) && Drops() == old(Drops())
      ensures old(LineBuffered()) ==> poll.Ready? && phase == Draining(0) && inner.polls == old(inner.polls)
      ensures |inner.schedule| <= |old(inner.schedule)|
      ensures !poll.Ready? ==> phase.Filling? && |inner.schedule| < |old(inner.schedule)|
      ensures poll.Ready? ==> |inner.rest| < |old(inner.rest)| || (!phase.Filling? && inner.rest == old(inner.rest))
    {
      hide Kept, Oversized, FirstNewline;
      var found := Scan();
      if found {
        return Ready;
      }
      if fill > limit {
        KeptOversized(buf[..fill], inner.rest, limit);
        dropped := dropped + 1;
        fill := 0;
        scanned := 0;
        phase := Discarding;
        return Ready;
      }
      poll := Refill();
    }

    /** One downstream poll with room for `capacity` bytes (src/mcp/limits.rs:96-217). */
    method PollRead(capacity: nat) returns (poll: Poll, out: seq<Byte>)
      requires Valid()
      modifies this, buf, scratch, inner
      ensures Valid()
      ensures |out| <= capacity && old(Owed()) == out + Owed() && Drops() == old(Drops())
      ensures |inner.schedule| <= |old(inner.schedule)|
      ensures !poll.Ready? ==> out == [] && |inner.schedule| < |old(inner.schedule)|
      ensures poll.Ready? && capacity > 0 && out == [] ==>
                Owed() == [] && inner.rest == [] && Drops() == dropped
      ensures old(LineBuffered()) && capacity > 0 ==> out != [] && inner.polls == old(inner.polls)
      ensures capacity == 0 ==> inner.polls == old(inner.polls) && phase == old(phase)
    {
      hide Kept, Oversized, FirstNewline, AfterNewline;
      out := [];
      if capacity == 0 {
        return Ready, [];
      }
      while true
        invariant Valid() && out == [] && Owed() == old(Owed()) && Drops() == old(Drops())
        invariant |inner.schedule| <= |old(inner.schedule)|
        invariant old(LineBuffered()) ==> LineBuffered() && inner.polls == old(inner.polls)
        decreases |inner.rest|, match phase case Filling => 2 case Discarding => 1 case _ => 0
      {
        match phase {
          case Eof => return Ready, [];
          case Draining(_) =>
            out := Drain(capacity);
            return Ready, out;
          case Discarding =>
            poll := Discard();
            if !poll.Ready? { return; }
          case Filling =>
            poll := Fill();
            if !poll.Ready? { return; }
        }
      }
    }
  }

  /** Polls `adapter` with the given capacities, as the codec does, until it reports the end. */
  method ReadAll(adapter: LineLimited, capacities: seq<nat>) returns (output: seq<Byte>, ended: bool)
    requires adapter.Valid()
    requires forall k :: 0 <= k < |capacities| ==> capacities[k] > 0
    modifies adapter, adapter.buf, adapter.scratch, adapter.inner
    ensures adapter.Valid() && old(adapter.Owed()) == output + adapter.Owed()
    ensures adapter.Drops() == old(adapter.Drops())
    ensures ended ==> output == old(adapter.Owed()) && adapter.dropped == old(adapter.Drops())
    ensures |capacities| > |old(adapter.Owed())| + |old(adapter.inner.schedule)| ==> ended
  {
    hide *;
    output, ended := [], false;
    var k := 0;
    while k < |capacities| && !ended
      invariant k <= |capacities| && adapter.Valid()
      invariant old(adapter.Owed()) == output + adapter.Owed() && adapter.Drops() == old(adapter.Drops())
      invariant ended ==> adapter.Owed() == [] && adapter.Drops() == adapter.dropped
      invariant !ended ==> k + |adapter.Owed()| + |adapter.inner.schedule|
                           <= |old(adapter.Owed())| + |old(adapter.inner.schedule)|
    {
      ghost var owed := adapter.Owed();
      var poll, out := adapter.PollRead(capacities[k]);
      assert output + owed == (output + out) + adapter.Owed();
      output := output + out;
      ended := poll.Ready? && out == [];
      k := k + 1;
    }
  }

  /** The transport as a whole: for every stream, every way the upstream hands it out and every way
      the codec asks for it, reading to the end yields exactly the kept lines. */
  method Transport(stream: seq<Byte>, schedule: seq<Step>, limit: nat, capacities: seq<nat>)
    returns (output: seq<Byte>, ended: bool, dropped: nat)
    requires forall k :: 0 <= k < |capacities| ==> capacities[k] > 0
    ensures output <= Kept(stream, limit)
    ensures ended ==> output == Kept(stream, limit) && dropped == Oversized(stream, limit)
    ensures |capacities| > |stream| + |schedule| ==> ended
  {
    var inner := new Upstream(stream, schedule);
    var adapter := new LineLimited(inner, limit);
    VerbatimIff(stream, limit);
    output, ended := ReadAll(adapter, capacities);
    dropped := adapter.dropped;
  }
}
