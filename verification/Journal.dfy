/**
  * The crash-safe writer: every change to a file is announced in a journal row, staged in a temp
  * file and landed by one rename, so a machine that dies between any two steps leaves each target
  * as it was or fully written, and startup repair removes what is left over.
  */
module Journal {
  import opened Prelude
  import opened SyncPlan
  import opened SyncRun
  import opened SyncLaws

  type Path = string
  type OpId = nat

  datatype File = Contents(text: Text, mtime: int)

  type Files = map<Path, File>

  /** A pre-read fingerprint; `Absent` asserts the path does not exist yet. */
  datatype Expected = Anything | Absent | Exactly(file: File)

  /** What another program does just before a mirror is verified; `moved` is a swapped slot. */
  datatype Meddling = Meddling(edits: map<Path, Option<File>>, moved: bool)

  const QUIET := Meddling(map[], false)

  /** One write to a path and its mirrors, with the interference each mirror meets. */
  datatype Write = Write(targets: seq<Path>, content: Text, at: int, expected: Expected,
                         allowed: set<Path>, meddling: nat -> Meddling)

  datatype Removal = Removal(targets: seq<Path>, allowed: set<Path>)

  datatype RowState = Intent | Applied

  datatype Row =
    | WriteRow(opId: OpId, target: Path, state: RowState, result: Hash)
    | DeleteRow(opId: OpId, target: Path, state: RowState)

  datatype Outcome = Done | NotInPlan(path: Path) | Stale(path: Path) | Crashed

  // ----- What an operation does to the files -----

  function Meddled(files: Files, edits: map<Path, Option<File>>): Files {
    map p | p in files.Keys + edits.Keys && (p in edits ==> edits[p].Some?) ::
      if p in edits then edits[p].value else files[p]
  }

  /** The files once the first `k` mirrors have landed. */
  function Landed(files: Files, op: Write, k: nat): Files
    requires k <= |op.targets|
  {
    if k == 0 then files
    else Meddled(Landed(files, op, k - 1), op.meddling(k - 1).edits)[op.targets[k - 1] := Contents(op.content, op.at)]
  }

  /** The files the `k`th mirror is verified against. */
  function BeforeMirror(files: Files, op: Write, k: nat): Files
    requires k < |op.targets|
  {
    Meddled(Landed(files, op, k), op.meddling(k).edits)
  }

  /** A mirror compares content only; the first path compares the modification time as well. */
  predicate Matches(files: Files, expected: Expected, p: Path, strict: bool) {
    match expected
    case Anything => true
    case Absent => p !in files
    case Exactly(f) => p in files && files[p].text == f.text && (strict ==> files[p].mtime == f.mtime)
  }

  predicate Accepts(files: Files, op: Write, i: nat)
    requires i < |op.targets|
  {
    op.targets[i] in op.allowed && Matches(files, op.expected, op.targets[i], i == 0)
  }

  predicate Verifies(files: Files, op: Write, i: nat)
    requires i < |op.targets|
  {
    !op.meddling(i).moved && Matches(BeforeMirror(files, op, i), op.expected, op.targets[i], i == 0)
  }

  function Removed(files: Files, targets: seq<Path>, k: nat): Files
    requires k <= |targets|
  {
    files - set p | p in targets[..k]
  }

  /** How far a write got, and why it stopped there. */
  ghost predicate WriteEnds(before: Files, op: Write, outcome: Outcome, after: Files) {
    var n := |op.targets|;
    match outcome
    case Done =>
      && (forall i | 0 <= i < n :: Accepts(before, op, i) && Verifies(before, op, i))
      && after == Landed(before, op, n)
    case NotInPlan(p) =>
      exists i | 0 <= i < n :: p == op.targets[i] && RefusedAt(before, op, i, after) && p !in op.allowed
    case Stale(p) =>
      exists i | 0 <= i < n :: p == op.targets[i] &&
        ((RefusedAt(before, op, i, after) && p in op.allowed) || BackedOutAt(before, op, i, after))
    case Crashed => WriteStops(before, op, after)
  }

  /** The first pass refused mirror `i`: nothing was written. */
  ghost predicate RefusedAt(before: Files, op: Write, i: nat, after: Files)
    requires i < |op.targets|
  {
    after == before && !Accepts(before, op, i) && forall j | 0 <= j < i :: Accepts(before, op, j)
  }

  /** The second pass refused mirror `i`: the mirrors before it are written, the rest untouched. */
  ghost predicate BackedOutAt(before: Files, op: Write, i: nat, after: Files)
    requires i < |op.targets|
  {
    && (forall j | 0 <= j < |op.targets| :: Accepts(before, op, j))
    && (forall j | 0 <= j < i :: Verifies(before, op, j))
    && !Verifies(before, op, i) && after == BeforeMirror(before, op, i)
  }

  /**
    * Wherever a write is cut off, no target is torn: nothing was written yet, or the first pass had
    * accepted every mirror and whole mirrors have landed, each verified.
    */
  ghost predicate WriteStops(before: Files, op: Write, after: Files) {
    after == before || WriteStopsLate(before, op, after)
  }

  ghost predicate WriteStopsLate(before: Files, op: Write, after: Files) {
    && (forall j | 0 <= j < |op.targets| :: Accepts(before, op, j))
    && exists k | 0 <= k <= |op.targets| :: StopsAt(before, op, k, after)
  }

  ghost predicate StopsAt(before: Files, op: Write, k: nat, after: Files)
    requires k <= |op.targets|
  {
    && (forall j | 0 <= j < k :: Verifies(before, op, j))
    && (after == Landed(before, op, k) || (k < |op.targets| && after == BeforeMirror(before, op, k)))
  }

  /**
    * The second pass can refuse although the first accepted, and what has landed stays: another
    * program creates the second mirror after the first one is written.
    */
  lemma LateRefusalLeavesEarlierMirrors(p: Path, q: Path, content: Text, at: int, theirs: File)
    requires p != q
    ensures var meddled := Meddling(map[q := Some(theirs)], false);
            var op := Write([p, q], content, at, Absent, {p, q}, i => if i == 1 then meddled else QUIET);
            WriteEnds(map[], op, Stale(q), map[p := Contents(content, at), q := theirs])
  {
    var meddled := Meddling(map[q := Some(theirs)], false);
    var op := Write([p, q], content, at, Absent, {p, q}, i => if i == 1 then meddled else QUIET);
    assert Meddled(map[], QUIET.edits) == map[];
    assert BeforeMirror(map[], op, 0) == map[] && Landed(map[], op, 1) == map[p := Contents(content, at)];
    assert BeforeMirror(map[], op, 1) == map[p := Contents(content, at), q := theirs];
    assert BackedOutAt(map[], op, 1, map[p := Contents(content, at), q := theirs]);
  }

  /**
    * Nobody else writing, the second pass never refuses what the first pass accepted: landing one
    * mirror does not disturb the next, because the write paths are distinct.
    */
  lemma {:induction false} QuietLanded(files: Files, op: Write, k: nat)
    requires k <= |op.targets|
    requires forall j | 0 <= j < k :: op.meddling(j) == QUIET
    ensures forall p :: Get(Landed(files, op, k), p) ==
                        if p in op.targets[..k] then Some(Contents(op.content, op.at)) else Get(files, p)
  {
    if k > 0 {
      QuietLanded(files, op, k - 1);
      var before := Landed(files, op, k - 1);
      assert Meddled(before, op.meddling(k - 1).edits) == before;
      assert op.targets[..k] == op.targets[..k - 1] + [op.targets[k - 1]];
    }
  }

  lemma QuietNeverRefusesLate(files: Files, op: Write, i: nat)
    requires i < |op.targets|
    requires forall j | 0 <= j <= i :: op.meddling(j) == QUIET
    requires forall j, k | 0 <= j < k < |op.targets| :: op.targets[j] != op.targets[k]
    requires Accepts(files, op, i)
    ensures Verifies(files, op, i)
  {
    QuietLanded(files, op, i);
    var before := Landed(files, op, i);
    assert Meddled(before, op.meddling(i).edits) == before;
    assert op.targets[i] !in op.targets[..i];
    assert Get(before, op.targets[i]) == Get(files, op.targets[i]);
  }

  ghost predicate VerifiedTo(before: Files, op: Write, n: nat)
    requires n <= |op.targets|
  {
    forall j | 0 <= j < n :: Verifies(before, op, j)
  }

  lemma VerifiedStep(before: Files, op: Write, i: nat)
    requires i < |op.targets| && VerifiedTo(before, op, i) && Verifies(before, op, i)
    ensures VerifiedTo(before, op, i + 1)
  {
  }

  lemma CompletesThere(before: Files, op: Write)
    requires VerifiedTo(before, op, |op.targets|) && forall j | 0 <= j < |op.targets| :: Accepts(before, op, j)
    ensures WriteEnds(before, op, Done, Landed(before, op, |op.targets|))
  {
  }

  /** A second pass that stops at mirror `i` ends the write as specified. */
  lemma StopsThere(before: Files, op: Write, i: nat, outcome: Outcome, after: Files)
    requires i < |op.targets| && forall j | 0 <= j < |op.targets| :: Accepts(before, op, j)
    requires VerifiedTo(before, op, i)
    requires outcome == Crashed || outcome == Stale(op.targets[i])
    requires outcome.Stale? ==> !Verifies(before, op, i) && after == BeforeMirror(before, op, i)
    requires outcome == Crashed ==>
               || after == Landed(before, op, i) || after == BeforeMirror(before, op, i)
               || (Verifies(before, op, i) && after == Landed(before, op, i + 1))
    ensures WriteEnds(before, op, outcome, after)
  {
    if outcome == Crashed {
      assert StopsAt(before, op, i, after) || StopsAt(before, op, i + 1, after);
    } else {
      assert BackedOutAt(before, op, i, after);
    }
  }

  // ----- Compare and set -----

  /** What the writer insists on seeing at its `i`th path: all of the file on the first, the text on a mirror. */
  predicate Wanted(op: Write, i: nat, seen: Option<File>) {
    && (op.expected == Absent ==> seen == None)
    && (op.expected.Exactly? ==>
          && seen.Some? && seen.value.text == op.expected.file.text
          && (i == 0 ==> seen.value.mtime == op.expected.file.mtime))
  }

  /** Nobody has moved the `i`th path, and it looked as wanted before the write and when its own turn came. */
  predicate StillWanted(before: Files, op: Write, i: nat)
    requires i < |op.targets|
  {
    && op.targets[i] in op.allowed && !op.meddling(i).moved
    && Wanted(op, i, Get(before, op.targets[i]))
    && Wanted(op, i, Get(BeforeMirror(before, op, i), op.targets[i]))
  }

  lemma BothPassesAsk(before: Files, op: Write, i: nat)
    requires i < |op.targets|
    ensures Accepts(before, op, i) && Verifies(before, op, i) <==> StillWanted(before, op, i)
  {
  }

  /** A refused or backed out write names a path that was not as wanted; the first pass let those before it through. */
  lemma RefusalHasACause(before: Files, op: Write, outcome: Outcome, after: Files) returns (i: nat)
    requires WriteEnds(before, op, outcome, after) && outcome != Crashed && outcome != Done
    ensures i < |op.targets| && outcome.path == op.targets[i] && !StillWanted(before, op, i)
    ensures outcome.NotInPlan? <==> op.targets[i] !in op.allowed
    ensures forall j | 0 <= j < i :: op.targets[j] in op.allowed && Wanted(op, j, Get(before, op.targets[j]))
  {
    i := RefusedMirror(before, op, outcome, after);
    BothPassesAsk(before, op, i);
    forall j | 0 <= j < i ensures op.targets[j] in op.allowed && Wanted(op, j, Get(before, op.targets[j])) {
      assert Accepts(before, op, j);
    }
  }

  lemma RefusedMirror(before: Files, op: Write, outcome: Outcome, after: Files) returns (i: nat)
    requires WriteEnds(before, op, outcome, after) && outcome != Crashed && outcome != Done
    ensures i < |op.targets| && outcome.path == op.targets[i] && (!Accepts(before, op, i) || !Verifies(before, op, i))
    ensures outcome.NotInPlan? <==> op.targets[i] !in op.allowed
    ensures forall j | 0 <= j < i :: Accepts(before, op, j)
  {
    match outcome
    case NotInPlan(p) =>
      i :| 0 <= i < |op.targets| && p == op.targets[i] && RefusedAt(before, op, i, after) && p !in op.allowed;
    case Stale(p) =>
      i :| 0 <= i < |op.targets| && p == op.targets[i] &&
           ((RefusedAt(before, op, i, after) && p in op.allowed) || BackedOutAt(before, op, i, after));
      assert BackedOutAt(before, op, i, after) ==> Accepts(before, op, i);
  }

  /** A write that is not cut off is done exactly when every path was as wanted; else it names one that was not. */
  lemma DoneExactlyWhen(before: Files, op: Write, outcome: Outcome, after: Files)
    requires WriteEnds(before, op, outcome, after) && outcome != Crashed
    ensures outcome == Done <==> forall i | 0 <= i < |op.targets| :: StillWanted(before, op, i)
    ensures outcome.NotInPlan? ==> outcome.path in op.targets && outcome.path !in op.allowed
    ensures outcome.Stale? ==> outcome.path in op.targets && outcome.path in op.allowed
  {
    if outcome == Done {
      forall i | 0 <= i < |op.targets| ensures StillWanted(before, op, i) { BothPassesAsk(before, op, i); }
    } else {
      var i := RefusalHasACause(before, op, outcome, after);
    }
  }

  lemma StopsAfterWanted(before: Files, op: Write, k: nat, i: nat)
    requires i < k <= |op.targets|
    requires forall j | 0 <= j < |op.targets| :: Accepts(before, op, j)
    requires forall j | 0 <= j < k :: Verifies(before, op, j)
    ensures StillWanted(before, op, i)
  {
    BothPassesAsk(before, op, i);
  }

  /** The first `k` mirrors have landed, each as wanted when it was replaced, and the rest are untouched. */
  ghost predicate ReplacedAsWanted(before: Files, op: Write, k: nat, after: Files) {
    && k <= |op.targets|
    && (after == Landed(before, op, k) || (k < |op.targets| && after == BeforeMirror(before, op, k)))
    && forall i | 0 <= i < k :: StillWanted(before, op, i)
  }

  lemma StoppedAsWanted(before: Files, op: Write, k: nat, after: Files)
    requires k <= |op.targets| && forall j | 0 <= j < |op.targets| :: Accepts(before, op, j)
    requires VerifiedTo(before, op, k)
    requires after == Landed(before, op, k) || (k < |op.targets| && after == BeforeMirror(before, op, k))
    ensures ReplacedAsWanted(before, op, k, after)
  {
    forall i | 0 <= i < k ensures StillWanted(before, op, i) { StopsAfterWanted(before, op, k, i); }
  }

  lemma LateRefusal(before: Files, op: Write, outcome: Outcome, after: Files) returns (i: nat)
    requires WriteEnds(before, op, outcome, after) && outcome != Crashed && outcome != Done && after != before
    ensures i < |op.targets| && BackedOutAt(before, op, i, after)
  {
    i :| 0 <= i < |op.targets| && BackedOutAt(before, op, i, after);
  }

  /** However a write ends, it has replaced nothing that was not as wanted. */
  lemma ReplacesOnlyWhatItExpected(before: Files, op: Write, outcome: Outcome, after: Files) returns (k: nat)
    requires WriteEnds(before, op, outcome, after)
    ensures ReplacedAsWanted(before, op, k, after) && (outcome == Done ==> k == |op.targets|)
  {
    k := 0;
    if outcome == Done {
      k := |op.targets|;
      StoppedAsWanted(before, op, k, after);
    } else if after != before {
      if outcome == Crashed {
        k :| 0 <= k <= |op.targets| && StopsAt(before, op, k, after);
      } else {
        k := LateRefusal(before, op, outcome, after);
      }
      StoppedAsWanted(before, op, k, after);
    }
  }

  lemma QuietStillWanted(before: Files, op: Write, i: nat)
    requires i < |op.targets| && forall j | 0 <= j <= i :: op.meddling(j) == QUIET
    requires forall j, k | 0 <= j < k < |op.targets| :: op.targets[j] != op.targets[k]
    ensures StillWanted(before, op, i) <==>
              op.targets[i] in op.allowed && Wanted(op, i, Get(before, op.targets[i]))
  {
    QuietLanded(before, op, i);
    var was := Landed(before, op, i);
    assert Meddled(was, op.meddling(i).edits) == was;
    assert op.targets[i] !in op.targets[..i];
    assert Get(was, op.targets[i]) == Get(before, op.targets[i]);
  }

  /**
    * With nobody else writing, a write over distinct paths puts the content on all of them or on
    * none: on all exactly when each is in the plan and is as the caller last read it.
    */
  lemma QuietWriteIsCompareAndSet(before: Files, op: Write, outcome: Outcome, after: Files)
    requires WriteEnds(before, op, outcome, after) && outcome != Crashed
    requires forall i | 0 <= i < |op.targets| :: op.meddling(i) == QUIET
    requires forall j, k | 0 <= j < k < |op.targets| :: op.targets[j] != op.targets[k]
    ensures outcome == Done <==>
              forall i | 0 <= i < |op.targets| ::
                op.targets[i] in op.allowed && Wanted(op, i, Get(before, op.targets[i]))
    ensures forall p ::
              Get(after, p) == if outcome == Done && p in op.targets then Some(Contents(op.content, op.at))
                               else Get(before, p)
  {
    var n := |op.targets|;
    if outcome == Done {
      var k := ReplacesOnlyWhatItExpected(before, op, outcome, after);
      forall i | 0 <= i < n
        ensures op.targets[i] in op.allowed && Wanted(op, i, Get(before, op.targets[i]))
      {
        QuietStillWanted(before, op, i);
      }
      QuietLanded(before, op, n);
      assert op.targets[..n] == op.targets;
    } else {
      var i := RefusalHasACause(before, op, outcome, after);
      QuietStillWanted(before, op, i);
      QuietRefusalLeavesAll(before, op, outcome, after);
    }
  }

  lemma QuietRefusalLeavesAll(before: Files, op: Write, outcome: Outcome, after: Files)
    requires WriteEnds(before, op, outcome, after) && outcome != Crashed && outcome != Done
    requires forall i | 0 <= i < |op.targets| :: op.meddling(i) == QUIET
    requires forall j, k | 0 <= j < k < |op.targets| :: op.targets[j] != op.targets[k]
    ensures after == before
  {
    if after != before {
      var i := LateRefusal(before, op, outcome, after);
      assert Accepts(before, op, i);
      QuietNeverRefusesLate(before, op, i);
    }
  }

  /** One path, nobody else writing, cut off anywhere: it is replaced only if it is what the caller read. */
  lemma QuietSingleWrite(before: Files, op: Write, outcome: Outcome, after: Files, p: Path)
    requires WriteEnds(before, op, outcome, after) && op.targets == [p] && op.meddling(0) == QUIET
    ensures after == before || after == before[p := Contents(op.content, op.at)]
    ensures after != before ==>
              && p in op.allowed
              && (op.expected == Absent ==> p !in before)
              && (op.expected.Exactly? ==> Get(before, p) == Some(op.expected.file))
  {
    assert Meddled(before, QUIET.edits) == before;
    assert BeforeMirror(before, op, 0) == before && Landed(before, op, 1) == before[p := Contents(op.content, op.at)];
    var k := ReplacesOnlyWhatItExpected(before, op, outcome, after);
    if after != before { assert k == 1 && StillWanted(before, op, 0); }
  }

  /** The first `k` planned paths are gone and nothing else is. */
  ghost predicate RemovedUpTo(before: Files, op: Removal, k: nat, after: Files)
    requires k <= |op.targets|
  {
    after == Removed(before, op.targets, k)
  }

  ghost predicate RemovalEnds(before: Files, op: Removal, outcome: Outcome, after: Files) {
    match outcome
    case Done => (forall p :: p in op.targets ==> p in op.allowed) && RemovedUpTo(before, op, |op.targets|, after)
    case NotInPlan(p) =>
      exists k | 0 <= k < |op.targets| ::
        p == op.targets[k] && RemovedUpTo(before, op, k, after) && p !in op.allowed &&
        forall j | 0 <= j < k :: op.targets[j] in op.allowed
    case Stale(p) => false
    case Crashed => exists k | 0 <= k <= |op.targets| :: RemovedUpTo(before, op, k, after)
  }

  /** A removal that is done has taken its paths and nothing else; it is refused at the first path outside the plan. */
  lemma RemovalTakesItsTargets(before: Files, op: Removal, outcome: Outcome, after: Files)
    requires RemovalEnds(before, op, outcome, after) && outcome != Crashed
    ensures outcome == Done <==> forall i | 0 <= i < |op.targets| :: op.targets[i] in op.allowed
    ensures outcome == Done ==> forall p :: Get(after, p) == if p in op.targets then None else Get(before, p)
    ensures outcome != Done ==>
              exists k | 0 <= k < |op.targets| && op.targets[k] !in op.allowed ::
                && (forall j | 0 <= j < k :: op.targets[j] in op.allowed)
                && forall p :: Get(after, p) == if p in op.targets[..k] then None else Get(before, p)
  {
    if outcome == Done {
      assert op.targets[..|op.targets|] == op.targets;
    } else {
      var k :| 0 <= k < |op.targets| && RemovedUpTo(before, op, k, after) && op.targets[k] !in op.allowed &&
               forall j | 0 <= j < k :: op.targets[j] in op.allowed;
    }
  }

  // ----- Directories -----

  /** The directories above a path, from the outermost down. */
  type Above = Path -> seq<Path>

  function Parents(above: Above, p: Path): set<Path> {
    set d | d in above(p)
  }

  function ParentsOfAll(above: Above, targets: seq<Path>): set<Path> {
    set p, d | p in targets && d in above(p) :: d
  }

  /** Every file lies in directories that exist. */
  ghost predicate Housed(above: Above, files: Files, dirs: set<Path>) {
    forall p :: p in files ==> Parents(above, p) <= dirs
  }

  /** What another program that writes these files has made sure of. */
  function HousesFor(above: Above, edits: map<Path, Option<File>>): set<Path> {
    set p, d | p in edits && edits[p].Some? && d in above(p) :: d
  }

  lemma MeddledStaysHoused(above: Above, files: Files, dirs: set<Path>, edits: map<Path, Option<File>>)
    requires Housed(above, files, dirs)
    ensures Housed(above, Meddled(files, edits), dirs + HousesFor(above, edits))
  {
  }

  /** The directories of the first `n` mirrors exist. */
  predicate Ready(above: Above, dirs: set<Path>, op: Write, n: nat)
    requires n <= |op.targets|
  {
    forall j | 0 <= j < n :: Parents(above, op.targets[j]) <= dirs
  }

  lemma ReadyStays(above: Above, dirs: set<Path>, more: set<Path>, op: Write, n: nat)
    requires n <= |op.targets| && Ready(above, dirs, op, n) && dirs <= more
    ensures Ready(above, more, op, n)
    ensures n < |op.targets| && Parents(above, op.targets[n]) <= more ==> Ready(above, more, op, n + 1)
  {
  }

  /** How many directories there are above the targets, counted with repetition. */
  function Levels(above: Above, targets: seq<Path>): nat {
    if targets == [] then 0 else Levels(above, targets[..|targets| - 1]) + |above(targets[|targets| - 1])|
  }

  // ----- The writer -----

  function OpIds(journal: seq<Row>): set<OpId> {
    set r | r in journal :: r.opId
  }

  datatype Report = Report(adopted: set<OpId>, rolledBack: set<OpId>, cleared: set<OpId>) {
    function Plus(v: Verdict, id: OpId): Report {
      match v
      case Adopted => this.(adopted := adopted + {id})
      case RolledBack => this.(rolledBack := rolledBack + {id})
      case Cleared => this.(cleared := cleared + {id})
    }
  }

  datatype Verdict = Adopted | RolledBack | Cleared

  /** An interrupted operation counts as done exactly when its target already shows its result. */
  function VerdictOn(files: Files, staged: set<OpId>, row: Row): Verdict {
    match row
    case WriteRow(opId, target, _, result) =>
      if target in files && HashOf(files[target].text) == result then Adopted
      else if opId in staged then RolledBack
      else Cleared
    case DeleteRow(_, target, _) => if target !in files then Adopted else Cleared
  }

  function RowsWith(files: Files, staged: set<OpId>, rows: seq<Row>, v: Verdict): set<OpId> {
    set r | r in rows && VerdictOn(files, staged, r) == v :: r.opId
  }

  function ReportFor(files: Files, staged: set<OpId>, rows: seq<Row>): Report {
    Report(RowsWith(files, staged, rows, Adopted), RowsWith(files, staged, rows, RolledBack),
           RowsWith(files, staged, rows, Cleared))
  }

  lemma ReportStep(files: Files, staged: set<OpId>, rows: seq<Row>, i: nat)
    requires i < |rows|
    ensures ReportFor(files, staged, rows[..i + 1]) ==
            ReportFor(files, staged, rows[..i]).Plus(VerdictOn(files, staged, rows[i]), rows[i].opId)
  {
    assert rows[..i + 1] == rows[..i] + [rows[i]];
    forall v
      ensures RowsWith(files, staged, rows[..i + 1], v) ==
              RowsWith(files, staged, rows[..i], v) +
                (if VerdictOn(files, staged, rows[i]) == v then {rows[i].opId} else {})
    {
    }
  }

  /** What repair reports of a row: done if the file shows it, rolled back if only its temp file does, else cleared. */
  lemma ReportMeans(files: Files, staged: set<OpId>, rows: seq<Row>, i: nat)
    requires i < |rows| && forall j, k :: 0 <= j < k < |rows| ==> rows[j].opId != rows[k].opId
    ensures var report, row := ReportFor(files, staged, rows), rows[i];
            var shows := if row.WriteRow? then row.target in files && HashOf(files[row.target].text) == row.result
                         else row.target !in files;
            && (row.opId in report.adopted <==> shows)
            && (row.opId in report.rolledBack <==> !shows && row.WriteRow? && row.opId in staged)
            && (row.opId in report.cleared <==> !shows && (row.WriteRow? ==> row.opId !in staged))
  {
    assert rows[i] in rows;
    forall r | r in rows && r.opId == rows[i].opId ensures r == rows[i] {
      var j :| 0 <= j < |rows| && rows[j] == r;
    }
    var v := VerdictOn(files, staged, rows[i]);
    assert rows[i].opId in RowsWith(files, staged, rows, v);
  }

  datatype Command =
    | DoWrite(op: Write, torn: nat -> Text)
    | DoRemove(removal: Removal)
    | DoRepair
    | Foreign(edits: map<Path, Option<File>>)

  /** One command and the number of primitive steps the machine lives through it. */
  datatype Turn = Turn(command: Command, steps: nat)

  ghost predicate Turned(before: Files, c: Command, after: Files) {
    match c
    case DoWrite(op, _) => exists outcome :: WriteEnds(before, op, outcome, after)
    case DoRemove(op) => exists outcome :: RemovalEnds(before, op, outcome, after)
    case DoRepair => after == before
    case Foreign(edits) => after == Meddled(before, edits)
  }

  function Earlier(script: seq<Turn>): (earlier: seq<Turn>)
    requires script != []
    ensures |earlier| < |script|
  {
    script[..|script| - 1]
  }

  function Last(script: seq<Turn>): Command
    requires script != []
  {
    script[|script| - 1].command
  }

  /** The files went from `before` to `after` through the turns of the script, one by one. */
  ghost predicate Explains(before: Files, script: seq<Turn>, after: Files) {
    if script == [] then after == before
    else exists mid :: Explains(before, Earlier(script), mid) && Turned(mid, Last(script), after)
  }

  class Applier {
    const above: Above
    var files: Files
    var dirs: set<Path>
    var temps: map<OpId, Text>
    var journal: seq<Row>
    var nextOp: OpId
    /** Primitive steps the machine still performs before it dies. */
    var fuel: nat

    /** Every temp file on disk is named by a journal row, and row ids are never reused. */
    ghost predicate Valid()
      reads this
    {
      && (forall t :: t in temps ==> t in OpIds(journal))
      && (forall r :: r in journal ==> r.opId < nextOp)
      && (forall i, j :: 0 <= i < j < |journal| ==> journal[i].opId != journal[j].opId)
    }

    constructor (above: Above, files: Files, dirs: set<Path>)
      ensures Valid() && this.above == above && this.files == files && this.dirs == dirs
      ensures temps == map[] && journal == []
    {
      this.above, this.files, this.dirs := above, files, dirs;
      temps, journal, nextOp, fuel := map[], [], 0, 0;
    }

    /** One primitive step; nothing happens once the fuel is spent. */
    method Step() returns (alive: bool)
      modifies this`fuel
      ensures alive == (old(fuel) > 0) && fuel == if alive then old(fuel) - 1 else 0
    {
      alive := fuel > 0;
      if alive { fuel := fuel - 1; }
    }

    /** A new process: the disk and the journal are all that is left. */
    method Restart(steps: nat)
      modifies this`fuel
      ensures fuel == steps
    {
      fuel := steps;
    }

    /** Creates the missing directories above a target, one step each. */
    method EnsureParentDirectories(target: Path) returns (alive: bool)
      modifies this`fuel, this`dirs
      ensures old(dirs) <= dirs <= old(dirs) + Parents(above, target)
      ensures alive ==> Parents(above, target) <= dirs
      ensures Parents(above, target) <= old(dirs) ==> alive && fuel == old(fuel)
      ensures old(fuel) >= |above(target)| ==> alive
      ensures fuel + |above(target)| >= old(fuel)
    {
      var levels := above(target);
      for i := 0 to |levels|
        invariant old(dirs) <= dirs <= old(dirs) + Parents(above, target)
        invariant forall j | 0 <= j < i :: levels[j] in dirs
        invariant Parents(above, target) <= old(dirs) ==> fuel == old(fuel)
        invariant fuel + i >= old(fuel)
      {
        if levels[i] !in dirs {
          assert levels[i] in Parents(above, target);
          alive := Step();
          if !alive { return; }
          dirs := dirs + {levels[i]};
        }
      }
      alive := true;
    }

    /** Another program acts: its files come with their directories. */
    method Meddle(edits: map<Path, Option<File>>)
      modifies this`files, this`dirs
      ensures files == Meddled(old(files), edits) && old(dirs) <= dirs
      ensures Housed(above, old(files), old(dirs)) ==> Housed(above, files, dirs)
    {
      if Housed(above, files, dirs) { MeddledStaysHoused(above, files, dirs, edits); }
      files := Meddled(files, edits);
      dirs := dirs + HousesFor(above, edits);
    }

    /** Appends an intent row under a fresh id. */
    method Begin(row: Row) returns (alive: bool)
      requires Valid() && row.opId == nextOp
      modifies this`fuel, this`journal, this`nextOp
      ensures Valid() && journal == if alive then old(journal) + [row] else old(journal)
      ensures row.opId !in temps && (alive ==> row.opId in OpIds(journal))
      ensures alive == (old(fuel) > 0) && fuel == if alive then old(fuel) - 1 else 0
    {
      alive := Step();
      if alive {
        Appended(journal, row);
        journal := journal + [row];
        nextOp := nextOp + 1;
      }
    }

    lemma Appended(rows: seq<Row>, row: Row)
      ensures OpIds(rows + [row]) == OpIds(rows) + {row.opId}
    {
      assert row == (rows + [row])[|rows|];
    }

    /** Marks the newest row applied and then drops it. */
    method Finish(ghost rows: seq<Row>, ghost row: Row) returns (alive: bool)
      requires Valid() && journal == rows + [row] && row.opId !in temps
      modifies this`fuel, this`journal
      ensures Valid() && (alive ==> journal == rows)
      ensures alive == (old(fuel) > 1) && fuel == if alive then old(fuel) - 2 else 0
    {
      alive := Step();
      if alive {
        Appended(rows, row);
        Appended(rows, row.(state := RowState.Applied));
        journal := journal[|journal| - 1 := journal[|journal| - 1].(state := RowState.Applied)];
        assert journal == rows + [row.(state := RowState.Applied)];
        alive := Drop(rows, row.(state := RowState.Applied));
      }
    }

    method Drop(ghost rows: seq<Row>, ghost row: Row) returns (alive: bool)
      requires Valid() && journal == rows + [row] && row.opId !in temps
      modifies this`fuel, this`journal
      ensures Valid() && journal == if alive then rows else old(journal)
      ensures alive == (old(fuel) > 0) && fuel == if alive then old(fuel) - 1 else 0
    {
      alive := Step();
      if alive {
        Appended(rows, row);
        journal := journal[..|journal| - 1];
        assert journal == rows;
      }
    }

    /** Creates the temp file of a journaled write; `torn` is what a crash leaves half staged. */
    method FillTemp(opId: OpId, content: Text, torn: Text) returns (alive: bool)
      requires Valid() && opId in OpIds(journal)
      modifies this`fuel, this`temps
      ensures Valid() && (alive ==> temps == old(temps)[opId := content])
      ensures alive == (old(fuel) > 1) && fuel == if alive then old(fuel) - 2 else 0
    {
      alive := Step();
      if !alive { return; }
      temps := temps[opId := torn];
      alive := Step();
      if !alive { return; }
      temps := temps[opId := content];
    }

    /** Journals a write and stages its temp file. */
    method Stage(target: Path, content: Text, torn: Text) returns (alive: bool, ghost row: Row)
      requires Valid()
      modifies this`fuel, this`journal, this`nextOp, this`temps
      ensures Valid() && row.opId == old(nextOp) && row.opId !in old(temps)
      ensures alive ==> journal == old(journal) + [row] && temps == old(temps)[row.opId := content]
      ensures alive == (old(fuel) > 2) && fuel == if alive then old(fuel) - 3 else 0
    {
      var opId := nextOp;
      row := WriteRow(opId, target, Intent, HashOf(content));
      alive := Begin(WriteRow(opId, target, Intent, HashOf(content)));
      if !alive { return; }
      alive := FillTemp(opId, content, torn);
    }

    /** Rolls a staged temp file back. */
    method BackOut(opId: OpId, ghost rows: seq<Row>, ghost row: Row) returns (alive: bool)
      requires Valid() && journal == rows + [row] && row.opId == opId
      modifies this`fuel, this`journal, this`temps
      ensures Valid() && (alive ==> journal == rows && temps == old(temps) - {opId})
      ensures alive == (old(fuel) > 1)
      ensures fuel == if alive then old(fuel) - 2 else 0
    {
      alive := Step();
      if !alive { return; }
      temps := temps - {opId};
      alive := Drop(rows, row);
    }

    /** Renames a staged temp file over its target. */
    method Land(opId: OpId, target: Path, at: int, ghost rows: seq<Row>, ghost row: Row) returns (alive: bool)
      requires Valid() && journal == rows + [row] && row.opId == opId && opId in temps
      modifies this`fuel, this`journal, this`temps, this`files
      ensures Valid() && (alive ==> journal == rows && temps == old(temps) - {opId})
      ensures files == old(files) || files == old(files)[target := Contents(old(temps)[opId], at)]
      ensures alive ==> files == old(files)[target := Contents(old(temps)[opId], at)]
      ensures alive == (old(fuel) > 2)
      ensures fuel == if alive then old(fuel) - 3 else 0
    {
      alive := Step();
      if !alive { return; }
      files, temps := files[target := Contents(temps[opId], at)], temps - {opId};
      alive := Finish(rows, row);
    }

    /** Verifies a staged mirror and lands it, or backs out. */
    method VerifyAndLand(op: Write, i: nat, ghost before: Files, ghost rows: seq<Row>, ghost row: Row, opId: OpId)
      returns (outcome: Outcome)
      requires Valid() && i < |op.targets| && files == Landed(before, op, i)
      requires journal == rows + [row] && row.opId == opId && opId in temps && temps[opId] == op.content
      modifies this`fuel, this`journal, this`temps, this`files, this`dirs
      ensures Valid() && old(dirs) <= dirs
      ensures Parents(above, op.targets[i]) <= old(dirs) && Housed(above, old(files), old(dirs)) ==>
                Housed(above, files, dirs)
      ensures outcome == Done ==> Verifies(before, op, i) && files == Landed(before, op, i + 1)
      ensures outcome.Stale? ==> !Verifies(before, op, i) && files == BeforeMirror(before, op, i)
      ensures outcome.Stale? ==> outcome.path == op.targets[i]
      ensures outcome == Done || outcome.Stale? ==> journal == rows && temps == old(temps) - {opId}
      ensures outcome == Crashed ==>
                files == BeforeMirror(before, op, i) || (Verifies(before, op, i) && files == Landed(before, op, i + 1))
      ensures !outcome.NotInPlan? && (old(fuel) >= 3 ==> outcome != Crashed)
      ensures fuel + 3 >= old(fuel)
    {
      var target := op.targets[i];
      Meddle(op.meddling(i).edits);
      var alive;
      if op.meddling(i).moved || !Matches(files, op.expected, target, i == 0) {
        alive := BackOut(opId, rows, row);
        return if alive then Stale(target) else Crashed;
      }
      alive := Land(opId, target, op.at, rows, row);
      return if alive then Done else Crashed;
    }

    /** Journals, stages, verifies and lands one mirror. */
    method WriteOne(op: Write, i: nat, ghost before: Files, torn: Text) returns (outcome: Outcome)
      requires Valid() && i < |op.targets| && files == Landed(before, op, i)
      requires Parents(above, op.targets[i]) <= dirs
      modifies this
      ensures Valid() && old(dirs) <= dirs && (Housed(above, old(files), old(dirs)) ==> Housed(above, files, dirs))
      ensures outcome == Done ==> Verifies(before, op, i) && files == Landed(before, op, i + 1)
      ensures outcome.Stale? ==> !Verifies(before, op, i) && files == BeforeMirror(before, op, i)
      ensures outcome.Stale? ==> outcome.path == op.targets[i]
      ensures outcome == Done || outcome.Stale? ==> journal == old(journal) && temps == old(temps)
      ensures outcome == Crashed ==>
                || files == Landed(before, op, i) || files == BeforeMirror(before, op, i)
                || (Verifies(before, op, i) && files == Landed(before, op, i + 1))
      ensures !outcome.NotInPlan? && (old(fuel) >= 6 ==> outcome != Crashed)
      ensures fuel + 6 >= old(fuel)
    {
      ghost var rows, staged := journal, temps;
      var opId := nextOp;
      var alive := EnsureParentDirectories(op.targets[i]);
      ghost var row;
      alive, row := Stage(op.targets[i], op.content, torn);
      if !alive { return Crashed; }
      outcome := VerifyAndLand(op, i, before, rows, row, opId);
      assert staged[opId := op.content] - {opId} == staged;
    }

    /** The first pass over one mirror. */
    method ValidateOne(op: Write, i: nat) returns (outcome: Outcome)
      requires i < |op.targets| && forall j | 0 <= j < i :: Accepts(files, op, j)
      modifies this`fuel, this`dirs
      ensures old(dirs) <= dirs <= old(dirs) + Parents(above, op.targets[i])
      ensures outcome == Done ==> Accepts(files, op, i) && Parents(above, op.targets[i]) <= dirs
      ensures outcome.NotInPlan? ==>
                outcome.path == op.targets[i] && RefusedAt(files, op, i, files) && outcome.path !in op.allowed
      ensures outcome.Stale? ==>
                outcome.path == op.targets[i] && RefusedAt(files, op, i, files) && outcome.path in op.allowed
      ensures old(fuel) >= |above(op.targets[i])| ==> outcome != Crashed
      ensures fuel + |above(op.targets[i])| >= old(fuel)
    {
      var target := op.targets[i];
      if target !in op.allowed { return NotInPlan(target); }
      var alive := EnsureParentDirectories(target);
      if !alive { return Crashed; }
      return if Matches(files, op.expected, target, i == 0) then Done else Stale(target);
    }

    /** The first pass: every write path is in the plan, has its directories, and looks as expected. */
    method Validate(op: Write) returns (outcome: Outcome)
      modifies this`fuel, this`dirs
      ensures old(dirs) <= dirs <= old(dirs) + ParentsOfAll(above, op.targets)
      ensures outcome == Done ==> Ready(above, dirs, op, |op.targets|)
      ensures outcome == Done ==> forall j | 0 <= j < |op.targets| :: Accepts(files, op, j)
      ensures outcome != Crashed && outcome != Done ==> WriteEnds(files, op, outcome, files)
      ensures old(fuel) >= Levels(above, op.targets) ==> outcome != Crashed
      ensures fuel + Levels(above, op.targets) >= old(fuel)
    {
      assert op.targets[..|op.targets|] == op.targets;
      for i := 0 to |op.targets|
        invariant old(dirs) <= dirs <= old(dirs) + ParentsOfAll(above, op.targets)
        invariant forall j | 0 <= j < i :: Accepts(files, op, j)
        invariant Ready(above, dirs, op, i)
        invariant fuel + Levels(above, op.targets[..i]) >= old(fuel)
      {
        LevelsStep(op.targets, i);
        ghost var was := dirs;
        outcome := ValidateOne(op, i);
        assert Parents(above, op.targets[i]) <= ParentsOfAll(above, op.targets);
        if outcome != Done { return; }
        ReadyStays(above, was, dirs, op, i);
      }
      return Done;
    }

    lemma LevelsStep(targets: seq<Path>, i: nat)
      requires i < |targets|
      ensures Levels(above, targets[..i + 1]) == Levels(above, targets[..i]) + |above(targets[i])|
      ensures Levels(above, targets[..i + 1]) <= Levels(above, targets)
      decreases |targets| - i
    {
      assert targets[..i + 1][..i] == targets[..i];
      if i + 1 < |targets| { LevelsStep(targets, i + 1); } else { assert targets[..i + 1] == targets; }
    }

    /** Validates every write path, then writes them one after another. */
    method WriteAll(op: Write, torn: nat -> Text) returns (outcome: Outcome)
      requires Valid()
      modifies this
      ensures Valid() && WriteEnds(old(files), op, outcome, files)
      ensures old(dirs) <= dirs && (Housed(above, old(files), old(dirs)) ==> Housed(above, files, dirs))
      ensures outcome != Crashed ==> journal == old(journal) && temps == old(temps)
      ensures old(fuel) >= Levels(above, op.targets) + 6 * |op.targets| ==> outcome != Crashed
    {
      outcome := Validate(op);
      if outcome != Done { return; }
      outcome := WriteEach(op, torn);
    }

    /** One more mirror of the second pass: it lands, or the whole write ends there. */
    method WriteNext(op: Write, i: nat, ghost before: Files, torn: Text) returns (outcome: Outcome)
      requires Valid() && i < |op.targets| && files == Landed(before, op, i)
      requires VerifiedTo(before, op, i) && forall j | 0 <= j < |op.targets| :: Accepts(before, op, j)
      requires Parents(above, op.targets[i]) <= dirs
      modifies this
      ensures Valid() && old(dirs) <= dirs && (Housed(above, old(files), old(dirs)) ==> Housed(above, files, dirs))
      ensures outcome == Done ==> VerifiedTo(before, op, i + 1) && files == Landed(before, op, i + 1)
      ensures outcome != Done ==> WriteEnds(before, op, outcome, files)
      ensures outcome != Crashed ==> journal == old(journal) && temps == old(temps)
      ensures old(fuel) >= 6 ==> outcome != Crashed
      ensures fuel + 6 >= old(fuel)
    {
      outcome := WriteOne(op, i, before, torn);
      if outcome == Done {
        VerifiedStep(before, op, i);
      } else {
        StopsThere(before, op, i, outcome, files);
      }
    }

    /** The second pass. */
    method WriteEach(op: Write, torn: nat -> Text) returns (outcome: Outcome)
      requires Valid() && forall j | 0 <= j < |op.targets| :: Accepts(files, op, j)
      requires Ready(above, dirs, op, |op.targets|)
      modifies this
      ensures Valid() && WriteEnds(old(files), op, outcome, files)
      ensures old(dirs) <= dirs && (Housed(above, old(files), old(dirs)) ==> Housed(above, files, dirs))
      ensures outcome != Crashed ==> journal == old(journal) && temps == old(temps)
      ensures old(fuel) >= 6 * |op.targets| ==> outcome != Crashed
    {
      ghost var before := files;
      for i := 0 to |op.targets|
        invariant Valid() && files == Landed(before, op, i)
        invariant old(dirs) <= dirs && (Housed(above, before, old(dirs)) ==> Housed(above, files, dirs))
        invariant journal == old(journal) && temps == old(temps)
        invariant VerifiedTo(before, op, i)
        invariant fuel + 6 * i >= old(fuel)
      {
        assert Parents(above, op.targets[i]) <= old(dirs);
        outcome := WriteNext(op, i, before, torn(i));
        if outcome != Done { return; }
      }
      outcome := Done;
      CompletesThere(before, op);
    }

    method RemoveOne(target: Path) returns (alive: bool)
      requires Valid()
      modifies this`fuel, this`journal, this`nextOp, this`files
      ensures Valid() && (alive ==> journal == old(journal))
      ensures files == old(files) || files == old(files) - {target}
      ensures alive ==> files == old(files) - {target}
      ensures old(fuel) >= 4 ==> alive
      ensures fuel + 4 >= old(fuel)
    {
      alive := true;
      if target !in files { return; }
      var opId := nextOp;
      ghost var row := DeleteRow(opId, target, Intent);
      alive := Begin(DeleteRow(opId, target, Intent));
      if !alive { return; }
      alive := Step();
      if !alive { return; }
      files := files - {target};
      alive := Finish(old(journal), row);
    }

    /** Deletes each planned path that exists; directories are not part of this model. */
    method Remove(op: Removal) returns (outcome: Outcome)
      requires Valid()
      modifies this`fuel, this`journal, this`nextOp, this`files
      ensures Valid() && RemovalEnds(old(files), op, outcome, files)
      ensures outcome != Crashed ==> journal == old(journal)
      ensures old(fuel) >= 4 * |op.targets| ==> outcome != Crashed
    {
      assert Removed(files, op.targets, 0) == files;
      for i := 0 to |op.targets|
        invariant Valid() && journal == old(journal)
        invariant files == Removed(old(files), op.targets, i)
        invariant forall j | 0 <= j < i :: op.targets[j] in op.allowed
        invariant fuel + 4 * i >= old(fuel)
      {
        var target := op.targets[i];
        assert op.targets[..i + 1] == op.targets[..i] + [target];
        if target !in op.allowed {
          assert RemovedUpTo(old(files), op, i, files);
          return NotInPlan(target);
        }
        var alive := RemoveOne(target);
        if !alive {
          assert RemovedUpTo(old(files), op, i, files) || RemovedUpTo(old(files), op, i + 1, files);
          return Crashed;
        }
      }
      return Done;
    }

    /** Startup repair: decides every row left behind, removes its temp file, and drops it. */
    method Reconcile() returns (done: bool, report: Report)
      requires Valid()
      modifies this`fuel, this`journal, this`temps
      ensures Valid() && (done ==> journal == [] && temps == map[])
      ensures done ==> report == ReportFor(files, old(temps).Keys, old(journal))
      ensures old(fuel) >= 2 * |old(journal)| ==> done
    {
      done, report := true, Report({}, {}, {});
      ghost var rows, staged := journal, temps.Keys;
      ghost var i := 0;
      while journal != []
        invariant Valid() && Remaining(rows, staged, i) && done
        invariant report == ReportFor(files, staged, rows[..i])
        invariant fuel + 2 * i >= old(fuel)
        decreases |journal|
      {
        done, report := ReconcileFirst(report, rows, staged, i);
        if !done { return; }
        i := i + 1;
      }
      assert rows[..|rows|] == rows;
      assert temps.Keys == {};
    }

    /** Decides, reports and retires the oldest row. */
    method ReconcileFirst(report: Report, ghost rows: seq<Row>, ghost staged: set<OpId>, ghost i: nat)
      returns (alive: bool, more: Report)
      requires Valid() && journal != [] && Remaining(rows, staged, i)
      requires report == ReportFor(files, staged, rows[..i])
      modifies this`fuel, this`journal, this`temps
      ensures Valid() && (alive ==> Remaining(rows, staged, i + 1) && |journal| < old(|journal|))
      ensures alive ==> more == ReportFor(files, staged, rows[..i + 1])
      ensures alive == (old(fuel) > 1) && fuel == if alive then old(fuel) - 2 else 0
    {
      ReportStep(files, staged, rows, i);
      assert journal[0] == rows[i] && journal[0] in journal;
      more := Decide(journal[0], report);
      alive := RetireFirst(rows, staged, i);
    }

    /** Repair has dealt with the first `i` rows and left the others as it found them. */
    ghost predicate Remaining(rows: seq<Row>, staged: set<OpId>, i: nat)
      reads this
    {
      && i <= |rows| && journal == rows[i..]
      && forall r :: r in journal ==> (r.opId in temps <==> r.opId in staged)
    }

    /** What the report says of one row. */
    method Decide(row: Row, report: Report) returns (more: Report)
      ensures more == report.Plus(VerdictOn(files, temps.Keys, row), row.opId)
    {
      if row.WriteRow? {
        if row.target in files && HashOf(files[row.target].text) == row.result {
          more := report.(adopted := report.adopted + {row.opId});
        } else if row.opId in temps {
          more := report.(rolledBack := report.rolledBack + {row.opId});
        } else {
          more := report.(cleared := report.cleared + {row.opId});
        }
      } else if row.target !in files {
        more := report.(adopted := report.adopted + {row.opId});
      } else {
        more := report.(cleared := report.cleared + {row.opId});
      }
    }

    /** Removes the oldest row's temp file, then the row. */
    method RetireFirst(ghost rows: seq<Row>, ghost staged: set<OpId>, ghost i: nat) returns (alive: bool)
      requires Valid() && journal != [] && Remaining(rows, staged, i)
      modifies this`fuel, this`journal, this`temps
      ensures Valid() && (alive ==> Remaining(rows, staged, i + 1))
      ensures alive == (old(fuel) > 1) && fuel == if alive then old(fuel) - 2 else 0
    {
      alive := Step();
      if !alive { return; }
      FirstIsAlone(journal);
      temps := temps - {journal[0].opId};
      alive := DropFirst();
    }

    method DropFirst() returns (alive: bool)
      requires Valid() && journal != [] && journal[0].opId !in temps
      modifies this`fuel, this`journal
      ensures Valid() && journal == if alive then old(journal)[1..] else old(journal)
      ensures alive == (old(fuel) > 0) && fuel == if alive then old(fuel) - 1 else 0
    {
      alive := Step();
      if alive {
        FirstIsAlone(journal);
        journal := journal[1..];
      }
    }

    lemma FirstIsAlone(rows: seq<Row>)
      requires rows != [] && forall i, j :: 0 <= i < j < |rows| ==> rows[i].opId != rows[j].opId
      ensures OpIds(rows) == OpIds(rows[1..]) + {rows[0].opId}
      ensures forall r :: r in rows[1..] ==> r in rows && r.opId != rows[0].opId
    {
      assert rows == [rows[0]] + rows[1..];
      assert forall r :: r in rows <==> r == rows[0] || r in rows[1..];
    }

    /** Any script of writes, removals, repairs and foreign edits, each turn cut off where it may be. */
    method Play(script: seq<Turn>)
      requires Valid()
      modifies this
      ensures Valid() && Explains(old(files), script, files)
      ensures old(dirs) <= dirs && (Housed(above, old(files), old(dirs)) ==> Housed(above, files, dirs))
    {
      for i := 0 to |script|
        invariant Valid() && Explains(old(files), script[..i], files)
        invariant old(dirs) <= dirs && (Housed(above, old(files), old(dirs)) ==> Housed(above, files, dirs))
      {
        ghost var before := files;
        Restart(script[i].steps);
        match script[i].command {
          case DoWrite(op, torn) => var _ := WriteAll(op, torn);
          case DoRemove(op) => var _ := Remove(op);
          case DoRepair => var _, _ := Reconcile();
          case Foreign(edits) => Meddle(edits);
        }
        assert Turned(before, script[i].command, files);
        assert Earlier(script[..i + 1]) == script[..i] && Last(script[..i + 1]) == script[i].command;
      }
      assert script[..|script|] == script;
    }
  }

  // ----- Crash atomicity over any script -----

  /** `v` is a full result the command may leave at the path. */
  ghost predicate SetBy(c: Command, p: Path, v: Option<File>) {
    match c
    case DoWrite(op, _) =>
      || (p in op.targets && v == Some(Contents(op.content, op.at)))
      || exists j | 0 <= j < |op.targets| :: Edited(op.meddling(j).edits, p, v)
    case DoRemove(op) => p in op.targets && v == None
    case DoRepair => false
    case Foreign(edits) => Edited(edits, p, v)
  }

  predicate Edited(edits: map<Path, Option<File>>, p: Path, v: Option<File>) {
    p in edits && v == edits[p]
  }

  lemma {:induction false} LandedAt(before: Files, op: Write, k: nat, torn: nat -> Text, p: Path)
    requires k <= |op.targets|
    ensures var v := Get(Landed(before, op, k), p); v == Get(before, p) || SetBy(DoWrite(op, torn), p, v)
  {
    if k > 0 {
      LandedAt(before, op, k - 1, torn, p);
      var v := Get(Landed(before, op, k), p);
      if p != op.targets[k - 1] && p in op.meddling(k - 1).edits {
        assert Edited(op.meddling(k - 1).edits, p, v);
      }
    }
  }

  lemma BeforeMirrorAt(before: Files, op: Write, k: nat, torn: nat -> Text, p: Path)
    requires k < |op.targets|
    ensures var v := Get(BeforeMirror(before, op, k), p); v == Get(before, p) || SetBy(DoWrite(op, torn), p, v)
  {
    LandedAt(before, op, k, torn, p);
    if p in op.meddling(k).edits {
      assert Edited(op.meddling(k).edits, p, Get(BeforeMirror(before, op, k), p));
    }
  }

  lemma TurnedAt(before: Files, c: Command, after: Files, p: Path)
    requires Turned(before, c, after)
    ensures Get(after, p) == Get(before, p) || SetBy(c, p, Get(after, p))
  {
    if c.DoWrite? {
      var op := c.op;
      forall k | 0 <= k <= |op.targets|
        ensures var v := Get(Landed(before, op, k), p); v == Get(before, p) || SetBy(c, p, v)
      {
        LandedAt(before, op, k, c.torn, p);
      }
      forall k | 0 <= k < |op.targets|
        ensures var v := Get(BeforeMirror(before, op, k), p); v == Get(before, p) || SetBy(c, p, v)
      {
        BeforeMirrorAt(before, op, k, c.torn, p);
      }
    }
    if c.DoRemove? {
      var outcome :| RemovalEnds(before, c.removal, outcome, after);
      var k :| 0 <= k <= |c.removal.targets| && RemovedUpTo(before, c.removal, k, after);
    }
  }

  /**
    * Crash atomicity: whatever the script and wherever its turns are cut off, each path ends with
    * what it held at the start or with the full result of one turn. Never a torn file.
    */
  lemma {:induction false} OldOrFullResult(before: Files, script: seq<Turn>, after: Files, p: Path)
    requires Explains(before, script, after)
    ensures Get(after, p) == Get(before, p) ||
            exists i | 0 <= i < |script| :: SetBy(script[i].command, p, Get(after, p))
  {
    if script != [] {
      var n := |script| - 1;
      var mid :| Explains(before, Earlier(script), mid) && Turned(mid, Last(script), after);
      OldOrFullResult(before, Earlier(script), mid, p);
      TurnedAt(mid, script[n].command, after, p);
      if Get(mid, p) == Get(after, p) && Get(after, p) != Get(before, p) {
        var i :| 0 <= i < n && SetBy(Earlier(script)[i].command, p, Get(mid, p));
        assert SetBy(script[i].command, p, Get(after, p));
      }
    }
  }

  // ----- The apply phase of a sync run as a script -----

  /** Of these paths, `home` is what the files hold at their local places. */
  ghost predicate Shows(files: Files, place: StorePath -> Path, paths: set<StorePath>, home: Home) {
    && home.Keys <= paths
    && forall p | p in paths :: Get(home, p) == if place(p) in files then Some(files[place(p)].text) else None
  }

  /** The command brings one store path to the content the run plans for it, and nobody interferes. */
  ghost predicate Carries(run: Run, place: StorePath -> Path, c: Command, p: StorePath) {
    match c
    case DoWrite(op, _) =>
      op.targets == [place(p)] && HomeAfterAt(run, p) == Some(op.content) && op.meddling(0) == QUIET
    case DoRemove(op) => op.targets == [place(p)] && HomeAfterAt(run, p) == None
    case DoRepair => true
    case Foreign(_) => false
  }

  ghost predicate CarriesOne(run: Run, place: StorePath -> Path, c: Command) {
    c.DoRepair? || exists p | p in Known(run) :: Carries(run, place, c, p)
  }

  ghost predicate AppliesRun(run: Run, place: StorePath -> Path, script: seq<Turn>) {
    forall i | 0 <= i < |script| :: CarriesOne(run, place, script[i].command)
  }

  /**
    * The paths have places of their own, at the root of their surface or below it, and no root is
    * the place of another path: a surface is a tree, or one file at its root.
    */
  ghost predicate Placed(above: Above, place: StorePath -> Path, rootOf: Surface -> Path, paths: set<StorePath>) {
    && (forall p, q | p in paths && q in paths :: place(p) == place(q) ==> p == q)
    && (forall p | p in paths :: place(p) == rootOf(p.surface) || rootOf(p.surface) in above(place(p)))
    && (forall p, q | p in paths && q in paths :: place(p) == rootOf(q.surface) ==> p == q)
  }

  lemma CarriedResult(run: Run, above: Above, place: StorePath -> Path, rootOf: Surface -> Path,
                      c: Command, p: StorePath, v: Option<File>)
    requires Placed(above, place, rootOf, Known(run)) && p in Known(run)
    requires CarriesOne(run, place, c) && SetBy(c, place(p), v)
    ensures HomeAfterAt(run, p) == if v.Some? then Some(v.value.text) else None
  {
    var q :| q in Known(run) && Carries(run, place, c, q);
    assert place(p) == place(q);
  }

  /** The declared surfaces whose root a scan finds. */
  ghost predicate ShowsRoots(cfg: Config, files: Files, dirs: set<Path>, rootOf: Surface -> Path, roots: set<Surface>) {
    forall s :: s in roots <==> s in cfg.declared && (rootOf(s) in dirs || rootOf(s) in files)
  }

  lemma ApplyPhaseAt(run: Run, above: Above, place: StorePath -> Path, rootOf: Surface -> Path, before: Files,
                     script: seq<Turn>, after: Files, home: Home, p: StorePath)
    requires Placed(above, place, rootOf, Known(run))
    requires Shows(before, place, Known(run), run.home) && Shows(after, place, Known(run), home)
    requires AppliesRun(run, place, script) && Explains(before, script, after)
    ensures Get(home, p) == Get(run.home, p) || Get(home, p) == HomeAfterAt(run, p)
  {
    if p in Known(run) {
      OldOrFullResult(before, script, after, place(p));
      if Get(after, place(p)) != Get(before, place(p)) {
        var i :| 0 <= i < |script| && SetBy(script[i].command, place(p), Get(after, place(p)));
        CarriedResult(run, above, place, rootOf, script[i].command, p, Get(after, place(p)));
      }
    }
  }

  /** A file the script removed is one the run deletes here. */
  lemma RemovedByTheRun(run: Run, place: StorePath -> Path, before: Files, script: seq<Turn>, after: Files, path: Path)
    returns (p: StorePath)
    requires AppliesRun(run, place, script) && Explains(before, script, after)
    requires path in before && path !in after
    ensures p in Known(run) && place(p) == path && HomeAfterAt(run, p) == None
  {
    OldOrFullResult(before, script, after, path);
    var i :| 0 <= i < |script| && SetBy(script[i].command, path, None);
    p :| p in Known(run) && Carries(run, place, script[i].command, p);
  }

  lemma RootsStayKnown(run: Run, above: Above, place: StorePath -> Path, rootOf: Surface -> Path,
                       files: Files, dirs: set<Path>, home: Home, roots: set<Surface>, p: StorePath)
    requires Placed(above, place, rootOf, Known(run)) && Housed(above, files, dirs)
    requires Shows(files, place, Known(run), home)
    requires ShowsRoots(run.cfg, files, dirs, rootOf, roots) && p in home && p.surface in run.cfg.declared
    ensures p.surface in roots
  {
    assert Get(home, p).Some? && place(p) in files;
    assert rootOf(p.surface) in Parents(above, place(p)) || place(p) == rootOf(p.surface);
  }

  /** A path whose root was a file and is gone is that file, and the run deletes it. */
  lemma RootWentWithItsFile(run: Run, above: Above, place: StorePath -> Path, rootOf: Surface -> Path,
                            before: Files, script: seq<Turn>, after: Files, home: Home, p: StorePath)
    requires Quiet(run) && Placed(above, place, rootOf, Known(run)) && p in Known(run)
    requires Shows(before, place, Known(run), run.home) && Shows(after, place, Known(run), home)
    requires AppliesRun(run, place, script) && Explains(before, script, after)
    requires rootOf(p.surface) in before && rootOf(p.surface) !in after
    ensures place(p) == rootOf(p.surface) && WentWithRoot(run, home, p)
  {
    var q := RemovedByTheRun(run, place, before, script, after, rootOf(p.surface));
    assert q == p;
    assert Get(home, p) == None && Get(run.home, p).Some?;
  }

  /**
    * A sync killed anywhere in its apply phase, reconciled any number of times on the way, leaves
    * a home in which every path is untouched or final, and roots that follow from it: what
    * `CrashAndRerunExactlyWhen` starts from. Directories may be there before their files, and the
    * root of a surface that is one file goes with it.
    */
  lemma ApplyPhaseLeavesCrashedHome(run: Run, above: Above, place: StorePath -> Path, rootOf: Surface -> Path,
                                    before: Files, dirs: set<Path>, script: seq<Turn>,
                                    after: Files, dirsAfter: set<Path>, home: Home, roots: set<Surface>)
    requires WellFormed(run) && Quiet(run) && Placed(above, place, rootOf, Known(run))
    requires Shows(before, place, Known(run), run.home) && Shows(after, place, Known(run), home)
    requires AppliesRun(run, place, script) && Explains(before, script, after)
    requires dirs <= dirsAfter && Housed(above, after, dirsAfter)
    requires ShowsRoots(run.cfg, before, dirs, rootOf, run.roots)
    requires ShowsRoots(run.cfg, after, dirsAfter, rootOf, roots)
    ensures CrashLeaves(run, home, roots)
  {
    forall p
      ensures CrashedAt(run, home, p)
      ensures p in home ==> p.surface in roots
    {
      ApplyPhaseAt(run, above, place, rootOf, before, script, after, home, p);
      if p in home { RootsStayKnown(run, above, place, rootOf, after, dirsAfter, home, roots, p); }
    }
    forall p | p in Known(run) && p.surface in run.roots && p.surface !in roots ensures WentWithRoot(run, home, p) {
      RootWentWithItsFile(run, above, place, rootOf, before, script, after, home, p);
    }
  }

  /** The script that deletes one file, and the crash right after. */
  function OneRemoval(path: Path): seq<Turn> {
    [Turn(DoRemove(Removal([path], {path})), 2)]
  }

  lemma OneRemovalExplained(path: Path, file: File)
    ensures Explains(map[path := file], OneRemoval(path), map[])
  {
    var before, script := map[path := file], OneRemoval(path);
    var op := Removal([path], {path});
    assert op.targets[..1] == [path];
    assert RemovedUpTo(before, op, 1, map[]);
    assert RemovalEnds(before, op, Crashed, map[]);
    assert Turned(before, Last(script), map[]);
    assert Explains(before, Earlier(script), before);
  }

  /**
    * It applies where a surface is one file. The run that deletes it, killed right after, leaves a
    * home without the file and no root, and its rerun brings the file back to the head.
    */
  lemma KilledAfterDeletingAFileSurface(p: StorePath, x: Text, path: Path, m: Manifest, again: Manifest)
    requires Assembles(DroppedFileRun(p, x), m) && Assembles(Rerun(DroppedFileRun(p, x), map[], {}), again)
    ensures var run, files := DroppedFileRun(p, x), map[path := Contents(x, 0)];
            && Placed(_ => [], _ => path, _ => path, Known(run))
            && Shows(files, _ => path, Known(run), run.home) && ShowsRoots(run.cfg, files, {}, _ => path, run.roots)
            && AppliesRun(run, _ => path, OneRemoval(path)) && Explains(files, OneRemoval(path), map[])
            && Shows(map[], _ => path, Known(run), map[]) && ShowsRoots(run.cfg, map[], {}, _ => path, {})
            && CrashLeaves(run, map[], {})
    ensures FileHash(Get(m, p)) == None && FileHash(Get(again, p)) == Some(HashOf(x))
  {
    var run, files: Files := DroppedFileRun(p, x), map[path := Contents(x, 0)];
    DeletedFileSurfaceComesBack(p, x, m, again);
    assert Known(run) == {p};
    OneRemovalExplained(path, Contents(x, 0));
    assert HomeAfterAt(run, p) == None;
    assert Carries(run, _ => path, OneRemoval(path)[0].command, p);
    ApplyPhaseLeavesCrashedHome(run, _ => [], _ => path, _ => path, files, {}, OneRemoval(path), map[], {}, map[], {});
  }
}
