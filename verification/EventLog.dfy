/**
  One writer's event file: `append_event` grows it with hash-chained lines and
  `_read_events` verifies the chain. SHA-256 is modelled as an injection: the
  digest of a line is the line itself, tagged.
*/
module EventLog {
  import opened Wrappers

  datatype Digest = NoDigest | ShaOfBlank | Sha(of: Line)

  /** The JSON object on one line. `prevHash` is empty on the first event. */
  datatype Line = Line(eventId: string, ts: string, seq_: nat, action: string,
                       transitionId: Option<string>, payload: string, prevHash: Digest)

  /** A physical line. Files edited by hand may hold blank ones. */
  datatype Physical = Blank | Text(line: Line)

  type File = seq<Physical>

  datatype ReadError = ChainBroken

  // ----- Reading -----

  /** The digest a reader holds after a prefix: blank lines do not change it. */
  function ReaderDigest(f: File): Digest {
    if f == [] then NoDigest
    else if f[|f| - 1].Blank? then ReaderDigest(f[..|f| - 1])
    else Sha(f[|f| - 1].line)
  }

  predicate Linked(f: File, i: nat)
    requires i < |f|
  {
    f[i].Text? ==> f[i].line.prevHash == NoDigest || f[i].line.prevHash == ReaderDigest(f[..i])
  }

  /** Every chained event links to the text line before it. */
  ghost predicate Accepted(f: File) {
    forall i :: 0 <= i < |f| ==> Linked(f, i)
  }

  function Events(f: File): seq<Line> {
    if f == [] then []
    else if f[|f| - 1].Blank? then Events(f[..|f| - 1])
    else Events(f[..|f| - 1]) + [f[|f| - 1].line]
  }

  /** `_read_events` on one file: the events in order, or a broken chain. */
  method ReadEvents(f: File) returns (r: Result<seq<Line>, ReadError>)
    ensures r.Success? <==> Accepted(f)
    ensures r.Success? ==> r.value == Events(f)
  {
    var out: seq<Line> := [];
    var prevLineHash := NoDigest;
    for i := 0 to |f|
      invariant Accepted(f[..i])
      invariant out == Events(f[..i]) && prevLineHash == ReaderDigest(f[..i])
    {
      assert f[..i + 1][..i] == f[..i];
      AcceptedSnoc(f[..i], f[i]);
      assert f[..i + 1] == f[..i] + [f[i]];
      if f[i].Blank? {
        continue;
      }
      var event := f[i].line;
      if event.prevHash != NoDigest && event.prevHash != prevLineHash {
        assert !Linked(f, i);
        return Failure(ChainBroken);
      }
      out := out + [event];
      prevLineHash := Sha(event);
    }
    assert f[..|f|] == f;
    r := Success(out);
  }

  lemma AcceptedSnoc(f: File, p: Physical)
    ensures Accepted(f + [p]) <==>
            Accepted(f) && (p.Text? ==> p.line.prevHash == NoDigest || p.line.prevHash == ReaderDigest(f))
  {
    var g := f + [p];
    assert g[..|f|] == f;
    assert Linked(g, |f|) <==> (p.Text? ==> p.line.prevHash == NoDigest || p.line.prevHash == ReaderDigest(f));
    forall i | 0 <= i < |f| ensures Linked(g, i) <==> Linked(f, i) {
      assert g[..i] == f[..i];
    }
  }

  // ----- Appending -----

  datatype Request = Request(eventId: string, ts: string, action: string, transitionId: Option<string>, payload: string)

  /** The first durable event that already carries the transition id. */
  function Find(f: File, transitionId: string): Option<Line> {
    if f == [] then None
    else if f[0].Text? && f[0].line.transitionId == Some(transitionId) then Some(f[0].line)
    else Find(f[1..], transitionId)
  }

  /** The digest a writer chains from: that of the last physical line. */
  function WriterDigest(f: File): Digest {
    if f == [] then NoDigest
    else if f[|f| - 1].Blank? then ShaOfBlank
    else Sha(f[|f| - 1].line)
  }

  function NewLine(f: File, r: Request): Line {
    Line(r.eventId, r.ts, |f|, r.action, r.transitionId, r.payload, WriterDigest(f))
  }

  /** A repeated transition id finds the event that carries it. */
  function Replay(f: File, r: Request): Option<Line> {
    if Truthy(r.transitionId) then Find(f, r.transitionId.value) else None
  }

  function Append(f: File, r: Request): File {
    if Replay(f, r).Some? then f else f + [Text(NewLine(f, r))]
  }

  function AppendAll(f: File, rs: seq<Request>): File
    decreases |rs|
  {
    if rs == [] then f else AppendAll(Append(f, rs[0]), rs[1..])
  }

  class WriterFile {
    var lines: File

    constructor ()
      ensures lines == []
    {
      lines := [];
    }

    /** Returns the durable event: a new one, or the one a retry repeats. */
    method AppendEvent(r: Request) returns (event: Line)
      modifies this
      ensures lines == Append(old(lines), r)
      ensures Text(event) in lines
      ensures if Replay(old(lines), r).Some? then Some(event) == Replay(old(lines), r) && lines == old(lines)
              else event == NewLine(old(lines), r)
    {
      if r.transitionId.Some? && r.transitionId.value != "" {
        for i := 0 to |lines|
          invariant lines == old(lines)
          invariant Find(lines, r.transitionId.value) == Find(lines[i..], r.transitionId.value)
        {
          assert lines[i..][1..] == lines[i + 1..];
          if lines[i].Text? && lines[i].line.transitionId == r.transitionId {
            return lines[i].line;
          }
        }
      }
      event := NewLine(lines, r);
      lines := lines + [Text(event)];
    }
  }

  // ----- What every produced log satisfies -----

  /** At most one event per nonempty transition id. */
  ghost predicate UniqueTransitions(f: File) {
    forall i, j :: 0 <= i < j < |f| && f[i].Text? && f[j].Text? && Truthy(f[i].line.transitionId) ==>
      f[i].line.transitionId != f[j].line.transitionId
  }

  /** No blank lines, and only the first event has no predecessor digest. */
  ghost predicate FullyChained(f: File) {
    forall i :: 0 <= i < |f| ==> f[i].Text? && (f[i].line.prevHash == NoDigest <==> i == 0)
  }

  ghost predicate Numbered(f: File) {
    forall i :: 0 <= i < |f| && f[i].Text? ==> f[i].line.seq_ == i
  }

  lemma {:induction false} FindNone(f: File, t: string)
    ensures Find(f, t).None? <==> forall i :: 0 <= i < |f| && f[i].Text? ==> f[i].line.transitionId != Some(t)
  {
    if f != [] {
      FindNone(f[1..], t);
      assert forall i :: 0 <= i < |f[1..]| ==> f[1..][i] == f[i + 1];
      assert forall i :: 1 <= i < |f| ==> f[i] == f[1..][i - 1];
    }
  }

  /** What one append keeps. */
  lemma AppendKeeps(f: File, r: Request)
    requires Accepted(f) && FullyChained(f) && UniqueTransitions(f) && Numbered(f)
    ensures var g := Append(f, r);
            Accepted(g) && FullyChained(g) && UniqueTransitions(g) && Numbered(g) && f <= g
  {
    if Replay(f, r).None? {
      AcceptedSnoc(f, Text(NewLine(f, r)));
      if Truthy(r.transitionId) { FindNone(f, r.transitionId.value); }
    }
  }

  /**
    Every log that appends produce passes the reader, is numbered without gaps
    and holds at most one event per nonempty transition id.
  */
  lemma {:induction false} ProducedLogsAreSound(f: File, rs: seq<Request>)
    requires Accepted(f) && FullyChained(f) && UniqueTransitions(f) && Numbered(f)
    ensures var g := AppendAll(f, rs);
            Accepted(g) && FullyChained(g) && UniqueTransitions(g) && Numbered(g) && f <= g
    decreases |rs|
  {
    if rs != [] {
      AppendKeeps(f, rs[0]);
      ProducedLogsAreSound(Append(f, rs[0]), rs[1..]);
    }
  }

  /** A new event keeps everything the request said, under the next number, and is what a reader reads last. */
  lemma NewEventIsKept(f: File, r: Request)
    requires Replay(f, r).None?
    ensures var g := Append(f, r);
            && |g| == |f| + 1 && f <= g && Events(g) == Events(f) + [g[|f|].line]
            && g[|f|].Text? && g[|f|].line.seq_ == |f|
            && g[|f|].line.eventId == r.eventId && g[|f|].line.ts == r.ts && g[|f|].line.action == r.action
            && g[|f|].line.transitionId == r.transitionId && g[|f|].line.payload == r.payload
  {
    assert Append(f, r)[..|f|] == f;
  }

  /** A retry is answered with the first event that carries its transition id. */
  lemma {:induction false} RetryFindsFirst(f: File, t: string)
    ensures Find(f, t).Some? ==>
              exists i :: 0 <= i < |f| && f[i] == Text(Find(f, t).value) && f[i].line.transitionId == Some(t)
                          && forall j :: 0 <= j < i && f[j].Text? ==> f[j].line.transitionId != Some(t)
    ensures Find(f, t).None? ==> forall i :: 0 <= i < |f| && f[i].Text? ==> f[i].line.transitionId != Some(t)
  {
    FindNone(f, t);
    if f != [] && Find(f, t).Some? {
      if f[0].Text? && f[0].line.transitionId == Some(t) {
        assert f[0] == Text(Find(f, t).value);
      } else {
        RetryFindsFirst(f[1..], t);
        var i :| 0 <= i < |f[1..]| && f[1..][i] == Text(Find(f, t).value)
                 && forall j :: 0 <= j < i && f[1..][j].Text? ==> f[1..][j].line.transitionId != Some(t);
        assert f[i + 1] == f[1..][i];
        assert forall j :: 1 <= j < i + 1 ==> f[j] == f[1..][j - 1];
      }
    }
  }

  /** Every request of a run is there afterwards: as its own event, or as one with its transition id. */
  lemma {:induction false} EveryRequestIsThere(f: File, rs: seq<Request>, k: nat)
    requires k < |rs|
    ensures exists i :: 0 <= i < |AppendAll(f, rs)| && Answers(AppendAll(f, rs)[i], rs[k])
    decreases |rs|
  {
    var g := Append(f, rs[0]);
    assert AppendAll(f, rs) == AppendAll(g, rs[1..]);
    if k > 0 {
      EveryRequestIsThere(g, rs[1..], k - 1);
      var i :| 0 <= i < |AppendAll(g, rs[1..])| && Answers(AppendAll(g, rs[1..])[i], rs[1..][k - 1]);
      assert Answers(AppendAll(f, rs)[i], rs[k]);
    } else {
      if Replay(f, rs[0]).Some? { RetryFindsFirst(f, rs[0].transitionId.value); }
      else { NewEventIsKept(f, rs[0]); assert Answers(g[|f|], rs[0]); }
      var i :| 0 <= i < |g| && Answers(g[i], rs[0]);
      AppendsGrow(g, rs[1..]);
      assert AppendAll(f, rs)[i] == g[i];
    }
  }

  predicate Answers(p: Physical, r: Request) {
    p.Text? && if r.transitionId.Some? && r.transitionId.value != "" then p.line.transitionId == r.transitionId
               else p.line.eventId == r.eventId && p.line.action == r.action && p.line.payload == r.payload
  }

  lemma {:induction false} AppendsGrow(f: File, rs: seq<Request>)
    ensures f <= AppendAll(f, rs)
    decreases |rs|
  {
    if rs != [] { AppendsGrow(Append(f, rs[0]), rs[1..]); }
  }

  /** Repeating a request with a transition id changes nothing, at any later time. */
  lemma RetryIsIdempotent(f: File, r: Request, later: seq<Request>)
    requires Truthy(r.transitionId)
    ensures var g := AppendAll(Append(f, r), later);
            Append(g, r) == g
  {
    var f' := Append(f, r);
    var t := r.transitionId.value;
    FindNone(f, t);
    assert Find(f', t).Some? by {
      FindNone(f', t);
      if Replay(f, r).None? { assert f'[|f|].line.transitionId == Some(t); }
    }
    FindStays(f', later, t);
  }

  lemma {:induction false} FindStays(f: File, rs: seq<Request>, t: string)
    requires Find(f, t).Some?
    ensures Find(AppendAll(f, rs), t).Some?
    decreases |rs|
  {
    if rs != [] {
      var f' := Append(f, rs[0]);
      FindNone(f, t);
      FindNone(f', t);
      var i :| 0 <= i < |f| && f[i].Text? && f[i].line.transitionId == Some(t);
      assert f'[i] == f[i];
      FindStays(f', rs[1..], t);
    }
  }

  /**
    The last line determines the log: two accepted, fully chained logs that end
    in the same line are identical.
  */
  lemma {:induction false} LastLineDeterminesLog(f: File, g: File)
    requires f != [] && g != []
    requires Accepted(f) && Accepted(g) && FullyChained(f) && FullyChained(g)
    requires f[|f| - 1] == g[|g| - 1]
    ensures f == g
  {
    var p, q := f[..|f| - 1], g[..|g| - 1];
    assert f == p + [f[|f| - 1]] && g == q + [g[|g| - 1]];
    assert Linked(f, |f| - 1) && Linked(g, |g| - 1);
    AcceptedSnoc(p, f[|f| - 1]);
    AcceptedSnoc(q, g[|g| - 1]);
    if p == [] || q == [] {
      assert |f| == 1 && |g| == 1;
    } else {
      assert ReaderDigest(p) == Sha(p[|p| - 1].line) && ReaderDigest(q) == Sha(q[|q| - 1].line);
      LastLineDeterminesLog(p, q);
    }
  }

  /**
    An append keeps an accepted file readable exactly when the file does not end
    in a blank line: the writer would chain from the blank line, which the reader
    skips.
  */
  lemma AppendReadableExactly(f: File, r: Request)
    requires Accepted(f) && Replay(f, r).None?
    ensures Accepted(Append(f, r)) <==> f == [] || f[|f| - 1].Text?
  {
    AcceptedSnoc(f, Text(NewLine(f, r)));
    if f != [] && f[|f| - 1].Blank? {
      ReaderNeverBlank(f);
    }
  }

  lemma {:induction false} ReaderNeverBlank(f: File)
    ensures ReaderDigest(f) != ShaOfBlank
  {
    if f != [] { ReaderNeverBlank(f[..|f| - 1]); }
  }
}
