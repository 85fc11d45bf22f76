/** Edge-triggered alerting over whole histories of runs: nothing pages twice in a row, and nothing
    goes quiet without having paged. */
module EdgeRuns {
  import opened Facts
  import opened Outcomes
  import opened Edge

  /** One run: what it found, how it was invoked, whether its save succeeds, and what it finds in the
      file, which anything may have damaged since the last run. */
  datatype Run = Run(findings: seq<Finding>, strict: bool, writable: bool, found: Content, left: Content, code: int)

  function Remembered(content: Content, str: Value -> string): set<AlertKey> {
    PreviousOrNothing(Load(content, str))
  }

  /** Between runs the file is untouched, or lost or damaged so that nothing in it can be trusted. */
  ghost predicate UntouchedOrDamaged(left: Content, found: Content, str: Value -> string) {
    found == left || Remembered(found, str) == {}
  }

  ghost predicate Steps(run: Run, str: Value -> string) {
    RunStep(run.found, run.findings, run.strict, run.writable, str, run.left, run.code)
  }

  /** A history starts with no state file. */
  ghost predicate History(runs: seq<Run>, str: Value -> string) {
    && (forall i :: 0 <= i < |runs| ==> Steps(runs[i], str))
    && (runs != [] ==> Remembered(runs[0].found, str) == {})
    && (forall i :: 0 < i < |runs| ==> UntouchedOrDamaged(runs[i - 1].left, runs[i].found, str))
  }

  function Problems(run: Run): set<AlertKey> {
    AlertKeys(run.findings, run.strict)
  }

  /** Run i got as far as reporting, reported problem k as new, and exited non-zero. A run that ends in
      a traceback has reported nothing. */
  ghost predicate Paged(runs: seq<Run>, i: int, k: AlertKey, str: Value -> string)
    requires 0 <= i < |runs|
  {
    && !Load(runs[i].found, str).Uncaught?
    && k in Problems(runs[i]) && k !in Remembered(runs[i].found, str) && runs[i].code != 0
  }

  // ------------------------------------------------------------------ nothing goes quiet unreported

  /** Whatever the history - lost or corrupt state, failed saves, strictness changing from run to run
      - every problem remembered after a run was reported as new by some run up to it that exited
      non-zero. */
  lemma {:induction false} RememberedWasPaged(runs: seq<Run>, i: nat, k: AlertKey, str: Value -> string)
    returns (j: nat)
    requires History(runs, str) && i < |runs| && k in Remembered(runs[i].left, str)
    ensures j <= i && Paged(runs, j, k, str)
    decreases i
  {
    assert Steps(runs[i], str);
    if k in Remembered(runs[i].found, str) {
      assert UntouchedOrDamaged(runs[i - 1].left, runs[i].found, str);
      j := RememberedWasPaged(runs, i - 1, k, str);
    } else {
      j := i;
      LoudIffSomethingIsNew(runs[i].code, runs[i].findings, Remembered(runs[i].found, str), runs[i].strict);
    }
  }

  /** A zero exit over a current problem means that problem has already been paged. */
  lemma QuietMeansAlreadyPaged(runs: seq<Run>, i: nat, k: AlertKey, str: Value -> string) returns (j: nat)
    requires History(runs, str) && i < |runs| && runs[i].code == 0 && k in Problems(runs[i])
    ensures j < i && Paged(runs, j, k, str)
  {
    assert Steps(runs[i], str);
    LoudIffSomethingIsNew(runs[i].code, runs[i].findings, Remembered(runs[i].found, str), runs[i].strict);
    assert k in Remembered(runs[i].found, str);
    assert UntouchedOrDamaged(runs[i - 1].left, runs[i].found, str);
    j := RememberedWasPaged(runs, i - 1, k, str);
  }

  // ------------------------------------------------------------------ what a run leaves behind

  /** A run whose problems are not what the file already says rewrites it exactly when the file can be
      written and could be decoded; rewritten, it says exactly what the run found. */
  lemma RewritesExactlyWhen(run: Run, str: Value -> string)
    requires Steps(run, str)
    ensures Load(run.found, str) != Previous(Problems(run)) ==>
      (run.left != run.found <==> run.writable && run.found != Undecodable)
    ensures run.left != run.found ==> Load(run.left, str) == Previous(Problems(run))
  {}

  /** From run `a` to run `b` nobody but lintarr touches the file. */
  ghost predicate LeftAlone(runs: seq<Run>, a: nat, b: nat, str: Value -> string) {
    && a <= b < |runs|
    && (forall i :: a <= i <= b ==> Steps(runs[i], str))
    && (forall i :: a < i <= b ==> runs[i].found == runs[i - 1].left)
  }

  /** A file whose bytes do not decode never heals by itself, and no other file ever becomes one. Every
      run over it exits 1 with no problem reported, whether there are problems or not. */
  lemma {:induction false} UndecodableNeverHeals(runs: seq<Run>, a: nat, b: nat, str: Value -> string)
    requires LeftAlone(runs, a, b, str)
    ensures runs[b].found == Undecodable <==> runs[a].found == Undecodable
    ensures runs[a].found == Undecodable ==>
      runs[b].code == 1 && runs[b].left == Undecodable && forall k :: !Paged(runs, b, k, str)
    decreases b
  {
    assert Steps(runs[b], str);
    if a < b {
      UndecodableNeverHeals(runs, a, b - 1, str);
      assert Steps(runs[b - 1], str) && runs[b].found == runs[b - 1].left;
    }
  }

  /** While saves fail, nothing is forgotten and nothing is learnt: every run exits 2 and compares with
      the state from before the outage, so each problem that state lacks is reported again and again;
      and the first run that can save reports exactly the problems new since before the outage. */
  lemma {:induction false} OutageForgetsNothing(runs: seq<Run>, a: nat, b: nat, str: Value -> string)
    requires LeftAlone(runs, a, b, str) && runs[a].found != Undecodable
    requires forall i :: a <= i < b ==> !runs[i].writable
    ensures Remembered(runs[b].found, str) == Remembered(runs[a].found, str)
    ensures forall k :: Paged(runs, b, k, str) <==> k in Problems(runs[b]) && k !in Remembered(runs[a].found, str)
    ensures if runs[b].writable
            then ReportsNew(runs[b].code, runs[b].findings, Remembered(runs[a].found, str), runs[b].strict)
            else runs[b].code == 2
    decreases b
  {
    assert Steps(runs[b], str);
    UndecodableNeverHeals(runs, a, b, str);
    if runs[b].writable {
      LoudIffSomethingIsNew(runs[b].code, runs[b].findings, Remembered(runs[b].found, str), runs[b].strict);
    }
    if a < b {
      OutageForgetsNothing(runs, a, b - 1, str);
      assert Steps(runs[b - 1], str) && runs[b].found == runs[b - 1].left;
    }
  }

  // ------------------------------------------------------------------ rising edges

  /** No faults: every save succeeds, every run finds what the last one left, strictness is fixed, and
      the file the history starts from, if any, decodes. */
  ghost predicate Undisturbed(runs: seq<Run>, str: Value -> string) {
    && History(runs, str)
    && (forall i :: 0 <= i < |runs| ==> runs[i].writable)
    && (forall i :: 0 < i < |runs| ==> runs[i].found == runs[i - 1].left && runs[i].strict == runs[0].strict)
    && (runs != [] ==> runs[0].found != Undecodable)
  }

  function ProblemsBefore(runs: seq<Run>, i: int): set<AlertKey>
    requires 0 <= i < |runs|
  {
    if i == 0 then {} else Problems(runs[i - 1])
  }

  lemma RememberedIsThePreviousRun(runs: seq<Run>, i: int, str: Value -> string)
    requires Undisturbed(runs, str) && 0 <= i < |runs|
    ensures runs[i].found != Undecodable && Remembered(runs[i].found, str) == ProblemsBefore(runs, i)
  {
    assert LeftAlone(runs, 0, i, str);
    UndecodableNeverHeals(runs, 0, i, str);
    if i > 0 {
      UndecodableNeverHeals(runs, 0, i - 1, str);
      assert Steps(runs[i - 1], str);
    }
  }

  /** Run i reports exactly the problems that are present at i and were absent at i - 1: its code says the
      worst kind among them, and is zero exactly when there are none. */
  lemma LoudOnRisingEdges(runs: seq<Run>, i: int, str: Value -> string)
    requires Undisturbed(runs, str) && 0 <= i < |runs|
    ensures ReportsNew(runs[i].code, runs[i].findings, ProblemsBefore(runs, i), runs[i].strict)
    ensures runs[i].code != 0 <==> exists k :: k in Problems(runs[i]) && k !in ProblemsBefore(runs, i)
  {
    assert Steps(runs[i], str);
    RememberedIsThePreviousRun(runs, i, str);
    LoudIffSomethingIsNew(runs[i].code, runs[i].findings, Remembered(runs[i].found, str), runs[i].strict);
  }

  /** At which runs a problem is there, and at which it is reported as new. */
  function Presence(runs: seq<Run>, k: AlertKey): (p: seq<bool>)
    ensures |p| == |runs| && forall i :: 0 <= i < |runs| ==> p[i] == (k in Problems(runs[i]))
  {
    seq(|runs|, i requires 0 <= i < |runs| => k in Problems(runs[i]))
  }

  ghost function Newness(runs: seq<Run>, k: AlertKey, str: Value -> string): (p: seq<bool>)
    ensures |p| == |runs| && forall i :: 0 <= i < |runs| ==> p[i] == Paged(runs, i, k, str)
  {
    seq(|runs|, i requires 0 <= i < |runs| => Paged(runs, i, k, str))
  }

  function CountTrue(p: seq<bool>): nat {
    if p == [] then 0 else (if p[0] then 1 else 0) + CountTrue(p[1..])
  }

  /** The rest of p after its leading run of `true`. */
  function AfterBlock(p: seq<bool>): (rest: seq<bool>)
    ensures |rest| <= |p| && (p != [] && p[0] ==> |rest| < |p|)
  {
    if p != [] && p[0] then AfterBlock(p[1..]) else p
  }

  /** The number of maximal consecutive blocks of `true`. */
  function Blocks(p: seq<bool>): nat
    decreases |p|
  {
    if p == [] then 0 else if p[0] then 1 + Blocks(AfterBlock(p)) else Blocks(p[1..])
  }

  ghost predicate MarksRises(rises: seq<bool>, p: seq<bool>, before: bool) {
    && |rises| == |p|
    && (p != [] ==> rises[0] == (p[0] && !before))
    && forall j :: 1 <= j < |p| ==> rises[j] == (p[j] && !p[j - 1])
  }

  lemma {:induction false} RisesCountBlocks(rises: seq<bool>, p: seq<bool>, before: bool)
    requires MarksRises(rises, p, before)
    ensures CountTrue(rises) == Blocks(if before then AfterBlock(p) else p)
    decreases |p|
  {
    if p != [] {
      var r, q := rises[1..], p[1..];
      if q != [] {
        assert r[0] == rises[1] && q[0] == p[1];
      }
      forall j | 1 <= j < |q|
        ensures r[j] == (q[j] && !q[j - 1])
      {
        assert r[j] == rises[j + 1] && q[j] == p[j + 1] && q[j - 1] == p[j];
      }
      assert MarksRises(r, q, p[0]);
      RisesCountBlocks(rises[1..], p[1..], p[0]);
    }
  }

  /** Undisturbed, a problem is reported as new exactly where it appears. */
  lemma PagedOnRise(runs: seq<Run>, i: int, k: AlertKey, str: Value -> string)
    requires Undisturbed(runs, str) && 0 <= i < |runs|
    ensures Paged(runs, i, k, str) <==> k in Problems(runs[i]) && k !in ProblemsBefore(runs, i)
  {
    RememberedIsThePreviousRun(runs, i, str);
    LoudOnRisingEdges(runs, i, str);
  }

  /** Undisturbed, a problem pages once for each maximal block of consecutive runs it is present in. */
  lemma OnePagePerBlock(runs: seq<Run>, k: AlertKey, str: Value -> string)
    requires Undisturbed(runs, str)
    ensures CountTrue(Newness(runs, k, str)) == Blocks(Presence(runs, k))
  {
    var rises, p := Newness(runs, k, str), Presence(runs, k);
    if runs != [] {
      PagedOnRise(runs, 0, k, str);
      assert rises[0] == p[0];
    }
    forall i | 1 <= i < |runs|
      ensures rises[i] == (p[i] && !p[i - 1])
    {
      PagedOnRise(runs, i, k, str);
    }
    RisesCountBlocks(rises, p, false);
  }
}
