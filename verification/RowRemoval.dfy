/**
  Removing rejected rows from an overlay shard (`_repair_targets`): physical
  lines as `bytes.splitlines(keepends=True)` cuts them, and the image left when
  the numbered rows are dropped. SHA-256 is modelled as an injection.
*/
module RowRemoval {
  import opened Wrappers

  type Bytes = seq<bv8>
  const LF: bv8 := 10
  const CR: bv8 := 13

  datatype Digest = Sha(raw: Bytes)

  // ----- Physical lines -----

  /** The length of the first line, its terminator included. */
  function LineLength(raw: Bytes): (n: nat)
    requires raw != []
    ensures 1 <= n <= |raw|
  {
    if raw[0] == LF then 1
    else if raw[0] == CR then (if |raw| > 1 && raw[1] == LF then 2 else 1)
    else if |raw| == 1 then 1
    else 1 + LineLength(raw[1..])
  }

  /** `raw.splitlines(keepends=True)`. */
  function SplitLines(raw: Bytes): seq<Bytes>
    decreases |raw|
  {
    if raw == [] then [] else [raw[..LineLength(raw)]] + SplitLines(raw[LineLength(raw)..])
  }

  function Join(rows: seq<Bytes>): Bytes {
    if rows == [] then [] else rows[0] + Join(rows[1..])
  }

  /** One row on its own reads as one line. */
  predicate OneLine(row: Bytes) {
    row != [] && LineLength(row) == |row|
  }

  predicate Terminated(row: Bytes) {
    row != [] && (row[|row| - 1] == LF || row[|row| - 1] == CR)
  }

  /** A carriage return that the next row's line feed would complete. */
  predicate Merges(row: Bytes, next: Bytes) {
    row != [] && next != [] && row[|row| - 1] == CR && next[0] == LF
  }

  /** Rows that read back as the same rows once joined. */
  ghost predicate WellCut(rows: seq<Bytes>) {
    && (forall i :: 0 <= i < |rows| ==> OneLine(rows[i]))
    && (forall i :: 0 <= i < |rows| - 1 ==> Terminated(rows[i]) && !Merges(rows[i], rows[i + 1]))
  }

  lemma {:induction false} JoinSplit(raw: Bytes)
    ensures Join(SplitLines(raw)) == raw
    decreases |raw|
  {
    if raw != [] {
      var n := LineLength(raw);
      JoinSplit(raw[n..]);
      var lines := SplitLines(raw);
      assert lines[0] == raw[..n] && lines[1..] == SplitLines(raw[n..]);
      assert Join(lines) == raw[..n] + Join(lines[1..]);
      assert raw[..n] + raw[n..] == raw;
    }
  }

  /** The first line of `row + rest` is `row` when nothing runs on into `rest`. */
  lemma {:induction false} FirstLineOfJoin(row: Bytes, rest: Bytes)
    requires OneLine(row) && (rest == [] || (Terminated(row) && !Merges(row, rest)))
    ensures LineLength(row + rest) == |row|
    decreases |row|
  {
    var all := row + rest;
    assert all[0] == row[0];
    if row[0] == LF {
    } else if row[0] == CR {
      if |row| == 1 { assert |all| > 1 ==> all[1] == rest[0]; } else { assert all[1] == row[1]; }
    } else if |row| == 1 {
      assert rest == [] && all == row;
    } else {
      assert all[1..] == row[1..] + rest;
      FirstLineOfJoin(row[1..], rest);
    }
  }

  /** The first line is one line, and stops before what follows it. */
  lemma {:induction false} FirstLineIsCut(raw: Bytes)
    requires raw != []
    ensures var row, rest := raw[..LineLength(raw)], raw[LineLength(raw)..];
            OneLine(row) && (rest != [] ==> Terminated(row) && !Merges(row, rest))
    decreases |raw|
  {
    var n := LineLength(raw);
    var row := raw[..n];
    if raw[0] != LF && raw[0] != CR && |raw| > 1 {
      FirstLineIsCut(raw[1..]);
      var row1 := raw[1..][..LineLength(raw[1..])];
      assert row == [raw[0]] + row1 && row[1..] == row1;
      assert raw[1..][LineLength(raw[1..])..] == raw[n..];
    }
  }

  lemma {:induction false} SplitIsWellCut(raw: Bytes)
    ensures WellCut(SplitLines(raw))
    decreases |raw|
  {
    if raw != [] {
      var n := LineLength(raw);
      FirstLineIsCut(raw);
      SplitIsWellCut(raw[n..]);
      if raw[n..] != [] {
        var next := SplitLines(raw[n..])[0];
        assert next == raw[n..][..LineLength(raw[n..])] && next[0] == raw[n..][0];
      }
    }
  }

  /** Joined rows read back as themselves exactly when they are well cut. */
  lemma {:induction false} SplitJoinExactly(rows: seq<Bytes>)
    ensures SplitLines(Join(rows)) == rows <==> WellCut(rows)
  {
    if SplitLines(Join(rows)) == rows {
      SplitIsWellCut(Join(rows));
    }
    if WellCut(rows) {
      SplitJoin(rows);
    }
  }

  lemma {:induction false} SplitJoin(rows: seq<Bytes>)
    requires WellCut(rows)
    ensures SplitLines(Join(rows)) == rows
  {
    if rows != [] {
      var rest := rows[1..];
      assert forall i :: 0 <= i < |rest| ==> rest[i] == rows[i + 1];
      SplitJoin(rest);
      if rest != [] {
        assert Join(rest)[0] == rest[0][0] by { assert Join(rest) == rest[0] + Join(rest[1..]); }
        assert !Merges(rows[0], rows[0 + 1]);
      }
      FirstLineOfJoin(rows[0], Join(rest));
      var all := rows[0] + Join(rest);
      assert all[..|rows[0]|] == rows[0] && all[|rows[0]|..] == Join(rest);
    }
  }

  // ----- Dropping numbered rows -----

  /** A row to reject: its 1-based number and the digest pinned for it. */
  datatype Target = Target(number: nat, sha: Digest)

  datatype RepairError = OutOfRange | LineMismatch | RowIsValid | StillInvalid

  datatype Repair = Repair(rejected: seq<Bytes>, image: Bytes)

  /** Whether the schema accepts a physical line. */
  type Schema = Bytes -> bool

  /** `_requested_targets`: positive and strictly increasing line numbers. */
  ghost predicate Ordered(targets: seq<Target>) {
    && targets != []
    && (forall i :: 0 <= i < |targets| ==> targets[i].number >= 1)
    && (forall i, j :: 0 <= i < j < |targets| ==> targets[i].number < targets[j].number)
  }

  predicate Numbers(targets: seq<Target>, n: int) {
    exists i :: 0 <= i < |targets| && targets[i].number == n
  }

  /** The rows whose number is not targeted, in order. */
  function Survivors(lines: seq<Bytes>, targets: seq<Target>): seq<Bytes> {
    if lines == [] then []
    else Survivors(lines[..|lines| - 1], targets)
         + if Numbers(targets, |lines|) then [] else [lines[|lines| - 1]]
  }

  predicate Whitespace(row: Bytes) {
    forall b :: b in row ==> b == 32 || (9 <= b <= 13)
  }

  /** `_validate_clean_shard`: every line that is not blank passes the schema. */
  predicate Clean(raw: Bytes, schema: Schema) {
    forall row :: row in SplitLines(raw) ==> Whitespace(row) || schema(row)
  }

  /** The first target that cannot be rejected, if any. */
  function TargetError(lines: seq<Bytes>, t: Target, schema: Schema): Option<RepairError> {
    if t.number > |lines| then Some(OutOfRange)
    else if t.number == 0 then Some(OutOfRange)
    else if Sha(lines[t.number - 1]) != t.sha then Some(LineMismatch)
    else if schema(lines[t.number - 1]) then Some(RowIsValid)
    else None
  }

  ghost predicate Repairable(lines: seq<Bytes>, targets: seq<Target>, schema: Schema) {
    && (forall i :: 0 <= i < |targets| ==> TargetError(lines, targets[i], schema).None?)
    && Clean(Join(Survivors(lines, targets)), schema)
  }

  function Rejected(lines: seq<Bytes>, targets: seq<Target>): seq<Bytes>
    requires forall i :: 0 <= i < |targets| ==> 1 <= targets[i].number <= |lines|
  {
    seq(|targets|, i requires 0 <= i < |targets| => lines[targets[i].number - 1])
  }

  /** `_repair_targets`: check every target, then join what survives. */
  method RepairTargets(lines: seq<Bytes>, targets: seq<Target>, schema: Schema) returns (r: Result<Repair, RepairError>)
    requires Ordered(targets)
    ensures r.Success? <==> Repairable(lines, targets, schema)
    ensures r.Success? ==> r.value == Repair(Rejected(lines, targets), Join(Survivors(lines, targets)))
  {
    var rejected: seq<Bytes> := [];
    var numbers: set<nat> := {};
    for i := 0 to |targets|
      invariant forall k :: 0 <= k < i ==> TargetError(lines, targets[k], schema).None?
      invariant |rejected| == i && forall k :: 0 <= k < i ==> rejected[k] == lines[targets[k].number - 1]
      invariant forall n :: n in numbers <==> exists k :: 0 <= k < i && targets[k].number == n
    {
      var t := targets[i];
      var error := TargetError(lines, t, schema);
      if error.Some? {
        return Failure(error.value);
      }
      rejected := rejected + [lines[t.number - 1]];
      numbers := numbers + {t.number};
    }
    assert rejected == Rejected(lines, targets);
    var kept: seq<Bytes> := [];
    for i := 0 to |lines|
      invariant kept == Survivors(lines[..i], targets)
    {
      assert lines[..i + 1][..i] == lines[..i];
      assert i + 1 in numbers <==> Numbers(targets, i + 1);
      if i + 1 !in numbers {
        kept := kept + [lines[i]];
      }
    }
    assert lines[..|lines|] == lines;
    var image := Join(kept);
    if !Clean(image, schema) {
      return Failure(StillInvalid);
    }
    return Success(Repair(rejected, image));
  }

  /**
    A repair is accepted exactly when every target is a line that has the pinned digest
    and breaks the schema, and every other line that is left keeps it or is blank.
  */
  lemma AcceptedExactly(lines: seq<Bytes>, targets: seq<Target>, schema: Schema)
    ensures Repairable(lines, targets, schema) <==>
            && (forall i :: 0 <= i < |targets| ==>
                  var n := targets[i].number;
                  1 <= n <= |lines| && Sha(lines[n - 1]) == targets[i].sha && !schema(lines[n - 1]))
            && (forall row :: row in SplitLines(Join(Survivors(lines, targets))) ==>
                  schema(row) || forall b :: b in row ==> b in {9, 10, 11, 12, 13, 32})
  {
    if Repairable(lines, targets, schema) {
      forall i | 0 <= i < |targets|
        ensures var n := targets[i].number;
                1 <= n <= |lines| && Sha(lines[n - 1]) == targets[i].sha && !schema(lines[n - 1])
      {
        assert TargetError(lines, targets[i], schema).None?;
      }
    }
    forall row ensures Whitespace(row) <==> forall b :: b in row ==> b in {9, 10, 11, 12, 13, 32} {
    }
  }

  // ----- Nothing is lost -----

  /** The positions kept, from low to high. */
  function KeptPositions(n: nat, targets: seq<Target>): seq<nat> {
    if n == 0 then [] else KeptPositions(n - 1, targets) + if Numbers(targets, n) then [] else [n - 1]
  }

  /** Survivors keep their order: they are the lines at increasing positions. */
  lemma {:induction false} SurvivorsKeepOrder(lines: seq<Bytes>, targets: seq<Target>)
    ensures var kept, rows := KeptPositions(|lines|, targets), Survivors(lines, targets);
            && |kept| == |rows|
            && (forall i :: 0 <= i < |kept| ==> kept[i] < |lines| && rows[i] == lines[kept[i]])
            && (forall i, j :: 0 <= i < j < |kept| ==> kept[i] < kept[j])
            && (forall p :: 0 <= p < |lines| ==> (p in kept <==> !Numbers(targets, p + 1)))
  {
    if lines != [] {
      SurvivorsKeepOrder(lines[..|lines| - 1], targets);
      var before := KeptPositions(|lines| - 1, targets);
      forall p | 0 <= p < |lines|
        ensures p in KeptPositions(|lines|, targets) <==> !Numbers(targets, p + 1)
      {
        if p < |lines| - 1 {
          assert p in before <==> !Numbers(targets, p + 1);
        } else {
          assert p !in before;
        }
      }
    }
  }

  /** Puts a row back so that it becomes line `number`. */
  function InsertAt(rows: seq<Bytes>, number: nat, row: Bytes): seq<Bytes> {
    if 1 <= number <= |rows| + 1 then rows[..number - 1] + [row] + rows[number - 1..] else rows
  }

  /** Reinserts rejected rows, lowest number first. */
  function Reinsert(rows: seq<Bytes>, targets: seq<Target>, rejected: seq<Bytes>): seq<Bytes>
    requires |targets| == |rejected|
  {
    if targets == [] then rows
    else InsertAt(Reinsert(rows, targets[..|targets| - 1], rejected[..|targets| - 1]),
                  targets[|targets| - 1].number, rejected[|targets| - 1])
  }

  lemma {:induction false} NoTargetsSurvive(lines: seq<Bytes>)
    ensures Survivors(lines, []) == lines
  {
    if lines != [] {
      NoTargetsSurvive(lines[..|lines| - 1]);
    }
  }

  /** Rows beyond every target all survive. */
  lemma {:induction false} TailSurvives(a: seq<Bytes>, b: seq<Bytes>, targets: seq<Target>)
    requires forall i :: 0 <= i < |targets| ==> targets[i].number <= |a|
    ensures Survivors(a + b, targets) == Survivors(a, targets) + b
  {
    if b == [] {
      assert a + b == a && Survivors(a, targets) + b == Survivors(a, targets);
    } else {
      var c := b[..|b| - 1];
      TailSurvives(a, c, targets);
      assert (a + b)[..|a + b| - 1] == a + c;
      assert !Numbers(targets, |a + b|);
      assert Survivors(a, targets) + c + [b[|b| - 1]] == Survivors(a, targets) + b;
    }
  }

  /** Only the targets within reach matter. */
  lemma {:induction false} SameNumbers(lines: seq<Bytes>, targets: seq<Target>, others: seq<Target>)
    requires forall n :: 1 <= n <= |lines| ==> (Numbers(targets, n) <==> Numbers(others, n))
    ensures Survivors(lines, targets) == Survivors(lines, others)
  {
    if lines != [] {
      SameNumbers(lines[..|lines| - 1], targets, others);
    }
  }

  /** Dropping the highest target as well removes exactly its row. */
  lemma SurvivorsWithLast(lines: seq<Bytes>, targets: seq<Target>)
    requires Ordered(targets) && targets[|targets| - 1].number <= |lines|
    ensures var n, rest := targets[|targets| - 1].number, targets[..|targets| - 1];
            Survivors(lines, targets) == Survivors(lines[..n - 1] + lines[n..], rest)
  {
    var n, rest := targets[|targets| - 1].number, targets[..|targets| - 1];
    var head := lines[..n - 1];
    assert lines == lines[..n] + lines[n..];
    TailSurvives(lines[..n], lines[n..], targets);
    TailSurvives(head, lines[n..], rest);
    assert Numbers(targets, n) && lines[..n][..n - 1] == head;
    NumbersWithoutLast(targets, |head|);
    SameNumbers(head, targets, rest);
  }

  lemma NumbersWithoutLast(targets: seq<Target>, m: nat)
    requires targets != [] && m < targets[|targets| - 1].number
    ensures forall k :: 1 <= k <= m ==> (Numbers(targets, k) <==> Numbers(targets[..|targets| - 1], k))
  {
    var rest := targets[..|targets| - 1];
    forall k | 1 <= k <= m ensures Numbers(targets, k) <==> Numbers(rest, k) {
      if Numbers(targets, k) {
        var i :| 0 <= i < |targets| && targets[i].number == k;
        assert rest[i].number == k;
      }
      if Numbers(rest, k) {
        var i :| 0 <= i < |rest| && rest[i].number == k;
        assert targets[i].number == k;
      }
    }
  }

  /**
    Row removal is lossless: putting the rejected rows back at their recorded
    numbers rebuilds the source rows exactly.
  */
  lemma {:induction false} ReinsertRebuilds(lines: seq<Bytes>, targets: seq<Target>)
    requires targets != [] ==> Ordered(targets)
    requires forall i :: 0 <= i < |targets| ==> 1 <= targets[i].number <= |lines|
    ensures Reinsert(Survivors(lines, targets), targets, Rejected(lines, targets)) == lines
    decreases |targets|
  {
    if targets == [] {
      NoTargetsSurvive(lines);
    } else {
      var n, rest := targets[|targets| - 1].number, targets[..|targets| - 1];
      ShorterHoldsTargets(lines, targets);
      ReinsertRebuilds(lines[..n - 1] + lines[n..], rest);
      RebuildLast(lines, targets, lines[..n - 1] + lines[n..]);
    }
  }

  /** With all but the last row back, the last one completes the source. */
  lemma RebuildLast(lines: seq<Bytes>, targets: seq<Target>, shorter: seq<Bytes>)
    requires Ordered(targets) && forall i :: 0 <= i < |targets| ==> 1 <= targets[i].number <= |lines|
    requires shorter == lines[..targets[|targets| - 1].number - 1] + lines[targets[|targets| - 1].number..]
    requires var rest := targets[..|targets| - 1];
             && (forall i :: 0 <= i < |rest| ==> 1 <= rest[i].number <= |shorter|)
             && Reinsert(Survivors(shorter, rest), rest, Rejected(shorter, rest)) == shorter
    ensures Reinsert(Survivors(lines, targets), targets, Rejected(lines, targets)) == lines
  {
    SurvivorsWithLast(lines, targets);
    ShorterHoldsTargets(lines, targets);
    PutBack(lines, targets[|targets| - 1].number);
    ReinsertLast(Survivors(lines, targets), targets, Rejected(lines, targets), shorter);
  }

  lemma ReinsertLast(rows: seq<Bytes>, targets: seq<Target>, rejected: seq<Bytes>, before: seq<Bytes>)
    requires |targets| == |rejected| && targets != []
    requires Reinsert(rows, targets[..|targets| - 1], rejected[..|targets| - 1]) == before
    ensures Reinsert(rows, targets, rejected)
            == InsertAt(before, targets[|targets| - 1].number, rejected[|targets| - 1])
  {
  }

  lemma PutBack(lines: seq<Bytes>, n: nat)
    requires 1 <= n <= |lines|
    ensures InsertAt(lines[..n - 1] + lines[n..], n, lines[n - 1]) == lines
  {
    var shorter := lines[..n - 1] + lines[n..];
    assert shorter[..n - 1] == lines[..n - 1] && shorter[n - 1..] == lines[n..];
  }

  lemma ShorterHoldsTargets(lines: seq<Bytes>, targets: seq<Target>)
    requires Ordered(targets) && forall i :: 0 <= i < |targets| ==> 1 <= targets[i].number <= |lines|
    ensures var n, rest := targets[|targets| - 1].number, targets[..|targets| - 1];
            var shorter := lines[..n - 1] + lines[n..];
            && (forall i :: 0 <= i < |rest| ==> 1 <= rest[i].number <= |shorter|)
            && (rest != [] ==> Ordered(rest))
            && Rejected(shorter, rest) == Rejected(lines, targets)[..|rest|]
  {
    var n, rest := targets[|targets| - 1].number, targets[..|targets| - 1];
    var shorter := lines[..n - 1] + lines[n..];
    forall i | 0 <= i < |rest|
      ensures 1 <= rest[i].number <= |shorter| && shorter[rest[i].number - 1] == lines[rest[i].number - 1]
    {
      assert targets[i].number < n;
    }
  }

  lemma {:induction false} JoinConcat(a: seq<Bytes>, b: seq<Bytes>)
    ensures Join(a + b) == Join(a) + Join(b)
  {
    if a == [] {
      assert a + b == b;
    } else {
      assert (a + b)[1..] == a[1..] + b;
      JoinConcat(a[1..], b);
    }
  }

  /** Bytes never grow, and shrink by every nonempty row dropped. */
  lemma {:induction false} ImageLength(lines: seq<Bytes>, targets: seq<Target>)
    requires forall i :: 0 <= i < |lines| ==> lines[i] != []
    ensures |Join(Survivors(lines, targets))| <= |Join(lines)|
    ensures (exists n :: 1 <= n <= |lines| && Numbers(targets, n)) ==>
              |Join(Survivors(lines, targets))| < |Join(lines)|
  {
    if lines != [] {
      var front, last := lines[..|lines| - 1], lines[|lines| - 1];
      assert lines == front + [last] && Join([last]) == last + Join([]) == last;
      ImageLength(front, targets);
      JoinConcat(front, [last]);
      JoinConcat(Survivors(front, targets), [last]);
      assert Survivors(front, targets) + [] == Survivors(front, targets);
      if n :| 1 <= n <= |lines| && Numbers(targets, n) && !Numbers(targets, |lines|) {
        assert 1 <= n <= |front|;
      }
    }
  }

  /** A repaired image is strictly shorter than its source. */
  lemma RepairShortens(raw: Bytes, targets: seq<Target>, schema: Schema)
    requires Ordered(targets) && Repairable(SplitLines(raw), targets, schema)
    ensures |Join(Survivors(SplitLines(raw), targets))| < |raw|
  {
    var lines := SplitLines(raw);
    JoinSplit(raw);
    SplitIsWellCut(raw);
    assert TargetError(lines, targets[0], schema).None? && Numbers(targets, targets[0].number);
    forall i | 0 <= i < |lines| ensures lines[i] != [] {
      assert OneLine(lines[i]);
    }
    ImageLength(lines, targets);
  }

  // ----- Reading the image back -----

  /** No carriage return of one survivor meets the line feed of the next. */
  ghost predicate NoJunction(rows: seq<Bytes>) {
    forall i :: 0 <= i < |rows| - 1 ==> !Merges(rows[i], rows[i + 1])
  }

  /** Survivors of real lines are well cut except where removal made a CR-LF. */
  lemma SurvivorsAreCut(raw: Bytes, targets: seq<Target>)
    ensures WellCut(Survivors(SplitLines(raw), targets)) <==> NoJunction(Survivors(SplitLines(raw), targets))
  {
    SurvivorRows(raw, targets);
  }

  /** Targets numbered `q` or lower. */
  function Low(targets: seq<Target>, q: int): nat {
    if targets == [] then 0
    else Low(targets[..|targets| - 1], q) + if targets[|targets| - 1].number <= q then 1 else 0
  }

  ghost predicate Rising(targets: seq<Target>) {
    targets != [] ==> Ordered(targets)
  }

  lemma FrontRises(targets: seq<Target>)
    requires Ordered(targets)
    ensures Rising(targets[..|targets| - 1])
    ensures forall i :: 0 <= i < |targets| - 1 ==> targets[i].number < targets[|targets| - 1].number
  {
  }

  lemma {:induction false} AllLow(targets: seq<Target>, q: int)
    requires forall i :: 0 <= i < |targets| ==> targets[i].number <= q
    ensures Low(targets, q) == |targets|
  {
    if targets != [] { AllLow(targets[..|targets| - 1], q); }
  }

  lemma {:induction false} LowStep(targets: seq<Target>, q: int)
    requires Rising(targets)
    ensures Low(targets, q) == Low(targets, q - 1) + if Numbers(targets, q) then 1 else 0
  {
    if targets != [] {
      var front, last := targets[..|targets| - 1], targets[|targets| - 1];
      FrontRises(targets);
      LowStep(front, q);
      if last.number == q {
        assert targets[|targets| - 1].number == q && !Numbers(front, q);
      } else {
        assert Numbers(front, q) ==> Numbers(targets, q) by {
          if i :| 0 <= i < |front| && front[i].number == q { assert targets[i].number == q; }
        }
        assert Numbers(targets, q) ==> Numbers(front, q) by {
          if i :| 0 <= i < |targets| && targets[i].number == q { assert front[i].number == q; }
        }
      }
    }
  }

  /** The row kept at a position has as many rows before it as survive there. */
  lemma {:induction false} KeptRank(n: nat, targets: seq<Target>)
    requires Rising(targets)
    ensures |KeptPositions(n, targets)| == n - Low(targets, n) + Low(targets, 0)
    ensures forall i :: 0 <= i < |KeptPositions(n, targets)| ==>
              var p := KeptPositions(n, targets)[i]; p - Low(targets, p + 1) + Low(targets, 0) == i
  {
    if n > 0 {
      KeptRank(n - 1, targets);
      LowStep(targets, n);
    }
  }

  lemma {:induction false} NoneAtZero(targets: seq<Target>)
    requires Rising(targets)
    ensures Low(targets, 0) == 0
  {
    if targets != [] {
      FrontRises(targets);
      NoneAtZero(targets[..|targets| - 1]);
    }
  }

  /** The first `q` rows after reinsertion depend on the rows that belong there only. */
  lemma {:induction false} ReinsertPrefix(
    a: seq<Bytes>, b: seq<Bytes>, targets: seq<Target>, rejected: seq<Bytes>, q: nat)
    requires |targets| == |rejected| && Rising(targets)
    requires var c := q - Low(targets, q); 0 <= c <= |a| && c <= |b| && a[..c] == b[..c]
    ensures var x, y := Reinsert(a, targets, rejected), Reinsert(b, targets, rejected);
            q <= |x| && q <= |y| && x[..q] == y[..q]
    decreases |targets|
  {
    if targets != [] {
      var n, front, kept := targets[|targets| - 1].number, targets[..|targets| - 1], rejected[..|targets| - 1];
      FrontRises(targets);
      if n > q {
        ReinsertPrefix(a, b, front, kept, q);
        InsertBeyond(Reinsert(a, front, kept), n, rejected[|targets| - 1], q);
        InsertBeyond(Reinsert(b, front, kept), n, rejected[|targets| - 1], q);
      } else {
        AllLow(front, q);
        AllLow(front, q - 1);
        ReinsertPrefix(a, b, front, kept, q - 1);
        InsertWithin(Reinsert(a, front, kept), Reinsert(b, front, kept), n, rejected[|targets| - 1], q);
      }
    }
  }

  lemma InsertBeyond(x: seq<Bytes>, n: nat, row: Bytes, q: nat)
    requires q < n && q <= |x|
    ensures q <= |InsertAt(x, n, row)| && InsertAt(x, n, row)[..q] == x[..q]
  {
  }

  lemma InsertWithin(x: seq<Bytes>, y: seq<Bytes>, n: nat, row: Bytes, q: nat)
    requires 1 <= n <= q && q - 1 <= |x| && q - 1 <= |y| && x[..q - 1] == y[..q - 1]
    ensures q <= |InsertAt(x, n, row)| && q <= |InsertAt(y, n, row)|
    ensures InsertAt(x, n, row)[..q] == InsertAt(y, n, row)[..q]
  {
    assert x[..n - 1] == x[..q - 1][..n - 1] && y[..n - 1] == y[..q - 1][..n - 1];
    assert InsertAt(x, n, row)[..q] == x[..n - 1] + [row] + x[..q - 1][n - 1..];
    assert InsertAt(y, n, row)[..q] == y[..n - 1] + [row] + y[..q - 1][n - 1..];
  }

  /** A row whose line number is no target lands where the targets below it leave room. */
  lemma {:induction false} ReinsertPlaces(a: seq<Bytes>, targets: seq<Target>, rejected: seq<Bytes>, q: nat)
    requires |targets| == |rejected| && Rising(targets) && q >= 1 && !Numbers(targets, q)
    requires 1 <= q - Low(targets, q) <= |a|
    ensures q <= |Reinsert(a, targets, rejected)|
    ensures Reinsert(a, targets, rejected)[q - 1] == a[q - Low(targets, q) - 1]
    decreases |targets|
  {
    if targets != [] {
      var n, front, kept := targets[|targets| - 1].number, targets[..|targets| - 1], rejected[..|targets| - 1];
      var before := Reinsert(a, front, kept);
      FrontRises(targets);
      FrontNumbers(targets, q);
      assert n != q;
      if n > q {
        ReinsertPlaces(a, front, kept, q);
      } else {
        AllLow(front, q);
        AllLow(front, q - 1);
        NoneAbove(front, q - 1);
        ReinsertPlaces(a, front, kept, q - 1);
      }
      InsertMoves(before, n, rejected[|targets| - 1], q);
      ReinsertLast(a, targets, rejected, before);
    }
  }

  lemma NoneAbove(targets: seq<Target>, q: int)
    requires forall i :: 0 <= i < |targets| ==> targets[i].number < q
    ensures !Numbers(targets, q)
  {
  }

  lemma InsertMoves(x: seq<Bytes>, n: nat, row: Bytes, q: nat)
    requires n >= 1 && q >= 1 && n != q && if n > q then q <= |x| else q - 1 <= |x|
    ensures q <= |InsertAt(x, n, row)|
    ensures InsertAt(x, n, row)[q - 1] == if n > q then x[q - 1] else x[q - 2]
  {
  }

  lemma FrontNumbers(targets: seq<Target>, q: int)
    requires targets != []
    ensures Numbers(targets[..|targets| - 1], q) ==> Numbers(targets, q)
  {
    var front := targets[..|targets| - 1];
    if i :| 0 <= i < |front| && front[i].number == q { assert targets[i].number == q; }
  }

  /** A line that ends in a carriage return takes in a line feed that follows it. */
  lemma {:induction false} LineTakesFeed(row: Bytes, rest: Bytes)
    requires OneLine(row) && row[|row| - 1] == CR
    ensures LineLength(row + [LF] + rest) == |row| + 1
  {
    var all := row + [LF] + rest;
    if |row| > 1 {
      assert row[0] != LF && row[0] != CR;
      assert all[1..] == row[1..] + [LF] + rest;
      LineTakesFeed(row[1..], rest);
    }
  }

  lemma SplitFirst(row: Bytes, rest: Bytes)
    requires OneLine(row) && (rest == [] || (Terminated(row) && !Merges(row, rest)))
    ensures SplitLines(row + rest) == [row] + SplitLines(rest)
  {
    var all := row + rest;
    FirstLineOfJoin(row, rest);
    assert all[..|row|] == row && all[|row|..] == rest;
  }

  /** Up to the first junction the rows are read back as they are, and there two become one. */
  lemma {:induction false} ReadToJunction(rows: seq<Bytes>, i: nat)
    requires i < |rows| - 1 && Merges(rows[i], rows[i + 1])
    requires forall j :: 0 <= j < |rows| ==> OneLine(rows[j])
    requires forall j :: 0 <= j < |rows| - 1 ==> Terminated(rows[j])
    requires forall j :: 0 <= j < i ==> !Merges(rows[j], rows[j + 1])
    ensures var read := SplitLines(Join(rows)); i < |read| && read[..i] == rows[..i] && read[i] == rows[i] + [LF]
  {
    if i == 0 {
      FeedIsTakenIn(rows);
    } else {
      var rest := rows[1..];
      assert forall j :: 0 <= j < |rest| ==> rest[j] == rows[j + 1];
      ReadToJunction(rest, i - 1);
      assert !Merges(rows[0], rows[0 + 1]);
      ReadOneMore(rows, SplitLines(Join(rest)), i);
    }
  }

  lemma FeedIsTakenIn(rows: seq<Bytes>)
    requires |rows| > 1 && OneLine(rows[0]) && OneLine(rows[1]) && Merges(rows[0], rows[1])
    ensures var read := SplitLines(Join(rows)); 0 < |read| && read[0] == rows[0] + [LF]
  {
    var rest := rows[1..];
    assert rows[1] == [LF];
    assert Join(rest) == [LF] + Join(rest[1..]);
    var all := rows[0] + Join(rest);
    assert all == rows[0] + [LF] + Join(rest[1..]);
    LineTakesFeed(rows[0], Join(rest[1..]));
    assert all[..|rows[0]| + 1] == rows[0] + [LF];
  }

  lemma ReadOneMore(rows: seq<Bytes>, tail: seq<Bytes>, i: nat)
    requires 1 <= i < |rows| && OneLine(rows[0]) && Terminated(rows[0]) && !Merges(rows[0], rows[1]) && rows[1] != []
    requires tail == SplitLines(Join(rows[1..])) && i - 1 < |tail| && tail[..i - 1] == rows[1..][..i - 1]
    ensures var read := SplitLines(Join(rows)); i < |read| && read[..i] == rows[..i] && read[i] == tail[i - 1]
  {
    var rest := rows[1..];
    assert Join(rest)[0] == rest[0][0] by { assert Join(rest) == rest[0] + Join(rest[1..]); }
    SplitFirst(rows[0], Join(rest));
    assert ([rows[0]] + tail)[..i] == [rows[0]] + tail[..i - 1];
    assert [rows[0]] + rest[..i - 1] == rows[..i];
  }

  lemma {:induction false} FirstJunction(rows: seq<Bytes>) returns (i: nat)
    requires !NoJunction(rows)
    ensures i < |rows| - 1 && Merges(rows[i], rows[i + 1])
    ensures forall j :: 0 <= j < i ==> !Merges(rows[j], rows[j + 1])
  {
    var k :| 0 <= k < |rows| - 1 && Merges(rows[k], rows[k + 1]);
    i := 0;
    while !Merges(rows[i], rows[i + 1])
      invariant i <= k && forall j :: 0 <= j < i ==> !Merges(rows[j], rows[j + 1])
      decreases k - i
    {
      i := i + 1;
    }
  }

  /** Rows that agree up to one that has gained a line feed join to different bytes. */
  lemma GainedFeedShows(x: seq<Bytes>, lines: seq<Bytes>, p: nat)
    requires p < |x| && p + 1 < |lines| && x[..p] == lines[..p] && x[p] == lines[p] + [LF]
    requires lines[p + 1] != [] && lines[p + 1][0] != LF
    ensures Join(x) != Join(lines)
  {
    JoinAround(x, p);
    JoinAround(lines, p);
    assert lines[p + 1..] == [lines[p + 1]] + lines[p + 2..];
    var at := |Join(lines[..p])| + |lines[p]|;
    assert Join(x)[at] == LF;
    assert Join(lines)[at] == lines[p + 1][0];
  }

  lemma JoinAround(rows: seq<Bytes>, p: nat)
    requires p < |rows|
    ensures Join(rows) == Join(rows[..p]) + rows[p] + Join(rows[p + 1..])
  {
    assert rows == rows[..p] + rows[p..];
    JoinConcat(rows[..p], rows[p..]);
    JoinFirst(rows[p..]);
    assert rows[p..][1..] == rows[p + 1..];
    Associates(Join(rows[..p]), rows[p], Join(rows[p + 1..]));
  }

  lemma JoinFirst(rows: seq<Bytes>)
    requires rows != []
    ensures Join(rows) == rows[0] + Join(rows[1..])
  {
  }

  lemma Associates(a: Bytes, b: Bytes, c: Bytes)
    ensures a + (b + c) == a + b + c
  {
  }

  /** Where a survivor that is not the last came from, and how many targets lie below. */
  lemma PlaceOfSurvivor(lines: seq<Bytes>, targets: seq<Target>, i: nat) returns (p: nat)
    requires Ordered(targets) && i < |Survivors(lines, targets)| - 1
    ensures p + 1 < |lines| && lines[p] == Survivors(lines, targets)[i]
    ensures !Numbers(targets, p + 1) && Low(targets, p) == Low(targets, p + 1) == p - i
  {
    var kept := KeptPositions(|lines|, targets);
    SurvivorsKeepOrder(lines, targets);
    p := kept[i];
    assert p < kept[i + 1];
    assert p in kept;
    KeptRank(|lines|, targets);
    NoneAtZero(targets);
    LowStep(targets, p + 1);
  }

  /** A row that gains a line feed keeps it, at its own place, through the reinsertion. */
  lemma FeedStaysInPlace(read: seq<Bytes>, rows: seq<Bytes>, targets: seq<Target>, rejected: seq<Bytes>,
                         i: nat, p: nat)
    requires |targets| == |rejected| && Ordered(targets)
    requires i < |rows| && i < |read| && read[..i] == rows[..i]
    requires !Numbers(targets, p + 1) && Low(targets, p) == Low(targets, p + 1) == p - i
    ensures var x, y := Reinsert(read, targets, rejected), Reinsert(rows, targets, rejected);
            p < |x| && p < |y| && x[..p] == y[..p] && x[p] == read[i]
  {
    ReinsertPrefix(read, rows, targets, rejected, p);
    ReinsertPlaces(read, targets, rejected, p + 1);
    ReinsertPlaces(rows, targets, rejected, p + 1);
  }

  /** At a junction the rows that are read back, with the rejected ones, are not the source. */
  lemma JunctionLosesSource(raw: Bytes, targets: seq<Target>)
    requires Ordered(targets)
    requires forall i :: 0 <= i < |targets| ==> 1 <= targets[i].number <= |SplitLines(raw)|
    requires !NoJunction(Survivors(SplitLines(raw), targets))
    ensures var lines := SplitLines(raw);
            Join(Reinsert(SplitLines(Join(Survivors(lines, targets))), targets, Rejected(lines, targets))) != raw
  {
    var lines := SplitLines(raw);
    var rows := Survivors(lines, targets);
    var read := SplitLines(Join(rows));
    var i := FirstJunction(rows);
    SurvivorRows(raw, targets);
    ReadToJunction(rows, i);
    var p := PlaceOfSurvivor(lines, targets, i);
    FeedStaysInPlace(read, rows, targets, Rejected(lines, targets), i, p);
    ReinsertRebuilds(lines, targets);
    SplitIsWellCut(raw);
    assert !Merges(lines[p], lines[p + 1]) && OneLine(lines[p + 1]);
    GainedFeedShows(Reinsert(read, targets, Rejected(lines, targets)), lines, p);
    JoinSplit(raw);
  }

  /** Survivors of real lines are lines, and all but the last are terminated. */
  lemma SurvivorRows(raw: Bytes, targets: seq<Target>)
    ensures var rows := Survivors(SplitLines(raw), targets);
            && (forall i :: 0 <= i < |rows| ==> OneLine(rows[i]))
            && (forall i :: 0 <= i < |rows| - 1 ==> Terminated(rows[i]))
  {
    var lines, rows := SplitLines(raw), Survivors(SplitLines(raw), targets);
    SplitIsWellCut(raw);
    SurvivorsKeepOrder(lines, targets);
    var kept := KeptPositions(|lines|, targets);
    forall i | 0 <= i < |rows| ensures OneLine(rows[i]) && (i < |rows| - 1 ==> Terminated(rows[i])) {
      assert OneLine(lines[kept[i]]);
      if i < |rows| - 1 {
        assert kept[i] < kept[i + 1];
        assert Terminated(lines[kept[i]]) && !Merges(lines[kept[i]], lines[kept[i] + 1]);
      }
    }
  }

  /**
    The repaired image reads back as the surviving rows, and with the rejected rows
    rebuilds the source bytes, exactly when no removal joined a carriage return to a
    line feed.
  */
  lemma ImageReadsBackExactly(raw: Bytes, targets: seq<Target>, schema: Schema)
    requires Ordered(targets) && Repairable(SplitLines(raw), targets, schema)
    ensures var lines := SplitLines(raw);
            var rows := Survivors(lines, targets);
            && (forall i :: 0 <= i < |targets| ==> 1 <= targets[i].number <= |lines|)
            && (SplitLines(Join(rows)) == rows <==> NoJunction(rows))
            && (Join(Reinsert(SplitLines(Join(rows)), targets, Rejected(lines, targets))) == raw <==> NoJunction(rows))
  {
    var lines := SplitLines(raw);
    var rows := Survivors(lines, targets);
    SplitJoinExactly(rows);
    SurvivorsAreCut(raw, targets);
    forall i | 0 <= i < |targets| ensures 1 <= targets[i].number <= |lines| {
      assert TargetError(lines, targets[i], schema).None?;
    }
    if NoJunction(rows) {
      ReinsertRebuilds(lines, targets);
      JoinSplit(raw);
    } else {
      JunctionLosesSource(raw, targets);
    }
  }

  lemma MiddleRowDropped(a: Bytes, x: Bytes, f: Bytes)
    ensures Survivors([a, x, f], [Target(2, Sha(x))]) == [a, f]
  {
    var lines, targets := [a, x, f], [Target(2, Sha(x))];
    assert Numbers(targets, 2) by { assert targets[0].number == 2; }
    assert !Numbers(targets, 1) && !Numbers(targets, 3);
    assert lines[..2] == [a, x] && lines[..2][..1] == [a] && [a][..0] == [];
    assert Survivors([a], targets) == [] + [a];
    assert Survivors([a, x], targets) == [a] by { assert [a, x][..1] == [a]; }
  }

  lemma JoinThree(a: Bytes, b: Bytes, c: Bytes)
    ensures Join([c]) == c && Join([b, c]) == b + c && Join([a, b, c]) == a + (b + c)
  {
    assert [c][1..] == [] && c + [] == c;
    assert [b, c][1..] == [c];
    assert [a, b, c][1..] == [b, c];
  }

  /** Five bytes that split into three lines. */
  lemma ThreeLines()
    ensures SplitLines([97, CR, 88, LF, LF]) == [[97, CR], [88, LF], [LF]]
  {
    var a: Bytes, x: Bytes, f: Bytes := [97, CR], [88, LF], [LF];
    JoinThree(a, x, f);
    assert a + (x + f) == [97, CR, 88, LF, LF];
    assert a[1..] == [CR] && x[1..] == [LF];
    assert OneLine(a) && OneLine(x) && OneLine(f);
    SplitJoin([a, x, f]);
  }

  /** Without the middle line, the carriage return meets the line feed. */
  lemma OneMergedLine()
    ensures |SplitLines(Join([[97, CR], [LF]]))| == 1
  {
    var a: Bytes, f: Bytes := [97, CR], [LF];
    var merged: Bytes := a + f;
    JoinThree(a, a, f);
    assert merged == [97, CR, LF] && merged[1..] == [CR, LF];
    assert LineLength([CR, LF]) == 2 && LineLength(merged) == 3;
    assert OneLine(merged) && WellCut([merged]);
    JoinThree(a, a, merged);
    SplitJoin([merged]);
  }

  /** A schema that rejects the row "X LF" alone. */
  const ALL_BUT_X: Schema := (row: Bytes) => row != [88, LF]

  lemma MiddleRowIsRepairable()
    ensures Repairable([[97, CR], [88, LF], [LF]], [Target(2, Sha([88, LF]))], ALL_BUT_X)
  {
    var lines: seq<Bytes> := [[97, CR], [88, LF], [LF]];
    MiddleRowDropped([97, CR], [88, LF], [LF]);
    OneMergedLine();
    JoinSplit(Join([[97, CR], [LF]]));
    JoinThree([97, CR], [97, CR], [LF]);
    var rows := SplitLines(Join([[97, CR], [LF]]));
    assert rows[1..] == [] && Join(rows) == rows[0] + [];
    assert rows[0] == [97, CR] + [LF];
    assert rows[0] != [88, LF];
  }

  /** Such a junction: dropping the middle row of "a CR X LF LF" leaves one line of two. */
  lemma AJunctionMergesRows()
    ensures var raw: Bytes := [97, CR, 88, LF, LF];
            var targets := [Target(2, Sha([88, LF]))];
            var rows := Survivors(SplitLines(raw), targets);
            && Ordered(targets) && Repairable(SplitLines(raw), targets, ALL_BUT_X)
            && |rows| == 2 && |SplitLines(Join(rows))| == 1
  {
    ThreeLines();
    MiddleRowDropped([97, CR], [88, LF], [LF]);
    OneMergedLine();
    MiddleRowIsRepairable();
  }
}
