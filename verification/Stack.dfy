/** The snapshot of a whole stack: every configured instance is either read or recorded as failed. */
module Stack {
  import opened QueueLiveness

  datatype ArrConfig = ArrConfig(name: string, kind: string)

  /** Instances by configuration, and the services the operator declared. */
  datatype Config = Config(qbits: seq<string>, arrs: seq<ArrConfig>, declared: set<string>)

  datatype ServiceError = ServiceError(kind: string, detail: string)

  datatype Answer<+T> = Read(value: T) | Failed(error: ServiceError)

  datatype ErrorRow = ErrorRow(name: string, kind: string, detail: string)

  datatype StackFacts = StackFacts(qbits: seq<QbtInstance>, arrs: seq<ArrInstance>, errors: seq<ErrorRow>)

  function Successes<T>(answers: seq<Answer<T>>): seq<T> {
    if answers == [] then []
    else
      (if answers[0].Read? then [answers[0].value] else []) + Successes(answers[1..])
  }

  function Failures<T>(labels: seq<string>, answers: seq<Answer<T>>): seq<ErrorRow>
    requires |labels| == |answers|
  {
    if answers == [] then []
    else
      (if answers[0].Failed? then [ErrorRow(labels[0], answers[0].error.kind, answers[0].error.detail)] else [])
      + Failures(labels[1..], answers[1..])
  }

  function InstanceLabel(kind: string, name: string): string {
    kind + "[" + name + "]"
  }

  function QbtLabels(cfg: Config): (labels: seq<string>)
    ensures |labels| == |cfg.qbits|
  {
    seq(|cfg.qbits|, i requires 0 <= i < |cfg.qbits| => InstanceLabel("qbittorrent", cfg.qbits[i]))
  }

  function ArrLabels(cfg: Config): (labels: seq<string>)
    ensures |labels| == |cfg.arrs|
  {
    seq(|cfg.arrs|, i requires 0 <= i < |cfg.arrs| => InstanceLabel(cfg.arrs[i].kind, cfg.arrs[i].name))
  }

  /** The adapters, as an oracle: what each instance answers. */
  datatype Adapters = Adapters(qbt: string -> Answer<QbtInstance>, arr: ArrConfig -> Answer<ArrInstance>)

  function QbtAnswers(cfg: Config, read: Adapters): (answers: seq<Answer<QbtInstance>>)
    ensures |answers| == |cfg.qbits|
  {
    seq(|cfg.qbits|, i requires 0 <= i < |cfg.qbits| => read.qbt(cfg.qbits[i]))
  }

  function ArrAnswers(cfg: Config, read: Adapters): (answers: seq<Answer<ArrInstance>>)
    ensures |answers| == |cfg.arrs|
  {
    seq(|cfg.arrs|, i requires 0 <= i < |cfg.arrs| => read.arr(cfg.arrs[i]))
  }

  lemma {:induction false} SuccessesAppend<T>(a: seq<Answer<T>>, x: Answer<T>)
    ensures Successes(a + [x]) == Successes(a) + if x.Read? then [x.value] else []
  {
    if a == [] {
      assert a + [x] == [x];
      assert [x][1..] == [];
    } else {
      SuccessesAppend(a[1..], x);
      assert (a + [x])[0] == a[0] && (a + [x])[1..] == a[1..] + [x];
    }
  }

  lemma {:induction false} FailuresAppend<T>(labels: seq<string>, a: seq<Answer<T>>, name: string, x: Answer<T>)
    requires |labels| == |a|
    ensures Failures(labels + [name], a + [x]) ==
      Failures(labels, a) + if x.Failed? then [ErrorRow(name, x.error.kind, x.error.detail)] else []
  {
    if a == [] {
      assert a + [x] == [x] && labels + [name] == [name];
      assert [x][1..] == [] && [name][1..] == [];
    } else {
      FailuresAppend(labels[1..], a[1..], name, x);
      assert (a + [x])[0] == a[0] && (a + [x])[1..] == a[1..] + [x];
      assert (labels + [name])[0] == labels[0] && (labels + [name])[1..] == labels[1..] + [name];
    }
  }

  /** A label names one instance: kinds without a bracket and any names at all come back out of it. */
  lemma {:induction false} LabelIdentifiesTheInstance(kind: string, name: string, kind': string, name': string)
    requires '[' !in kind && '[' !in kind' && InstanceLabel(kind, name) == InstanceLabel(kind', name')
    ensures kind == kind' && name == name'
  {
    var text, text' := InstanceLabel(kind, name), InstanceLabel(kind', name');
    assert text[0] == if kind == "" then '[' else kind[0];
    assert text'[0] == if kind' == "" then '[' else kind'[0];
    if kind == "" {
      assert text[1..|text| - 1] == name && text'[1..|text| - 1] == name';
    } else {
      assert text[1..] == InstanceLabel(kind[1..], name) && text'[1..] == InstanceLabel(kind'[1..], name');
      LabelIdentifiesTheInstance(kind[1..], name, kind'[1..], name');
    }
  }

  /** No instance vanishes: there are as many snapshot entries and error rows as there are instances. */
  lemma {:induction false} EveryAnswerIsAccountedFor<T>(labels: seq<string>, answers: seq<Answer<T>>)
    requires |labels| == |answers|
    ensures |Successes(answers)| + |Failures(labels, answers)| == |answers|
  {
    if answers != [] {
      EveryAnswerIsAccountedFor(labels[1..], answers[1..]);
    }
  }

  /** An instance that answered is in the snapshot, and one that failed has its own labelled row. */
  lemma {:induction false} AnswerIsRecorded<T>(labels: seq<string>, answers: seq<Answer<T>>, i: nat)
    requires |labels| == |answers| && i < |answers|
    ensures answers[i].Read? ==> answers[i].value in Successes(answers)
    ensures answers[i].Failed? ==>
      ErrorRow(labels[i], answers[i].error.kind, answers[i].error.detail) in Failures(labels, answers)
  {
    if i > 0 {
      AnswerIsRecorded(labels[1..], answers[1..], i - 1);
    }
  }

  /** Every snapshot entry is some instance's answer. */
  lemma {:induction false} EntryHasAnAnswer<T>(answers: seq<Answer<T>>, value: T) returns (i: nat)
    requires value in Successes(answers)
    ensures i < |answers| && answers[i] == Read(value)
  {
    if answers[0] == Read(value) {
      i := 0;
    } else {
      i := EntryHasAnAnswer(answers[1..], value);
      i := i + 1;
    }
  }

  /** Every error row is some failed instance's. */
  lemma {:induction false} RowHasAnAnswer<T>(labels: seq<string>, answers: seq<Answer<T>>, row: ErrorRow)
    returns (i: nat)
    requires |labels| == |answers| && row in Failures(labels, answers)
    ensures i < |answers| && answers[i].Failed? && row.name == labels[i]
  {
    if answers[0].Failed? && row == ErrorRow(labels[0], answers[0].error.kind, answers[0].error.detail) {
      i := 0;
    } else {
      i := RowHasAnAnswer(labels[1..], answers[1..], row);
      i := i + 1;
    }
  }

  /** One failing service neither aborts the run nor disappears from it. */
  method CollectStack(cfg: Config, read: Adapters) returns (facts: StackFacts)
    ensures facts.qbits == Successes(QbtAnswers(cfg, read))
    ensures facts.arrs == Successes(ArrAnswers(cfg, read))
    ensures facts.errors ==
      Failures(QbtLabels(cfg), QbtAnswers(cfg, read)) + Failures(ArrLabels(cfg), ArrAnswers(cfg, read))
  {
    var qbits: seq<QbtInstance>, arrs: seq<ArrInstance>, errors: seq<ErrorRow> := [], [], [];
    ghost var answers, labels := QbtAnswers(cfg, read), QbtLabels(cfg);
    for i := 0 to |cfg.qbits|
      invariant qbits == Successes(answers[..i])
      invariant errors == Failures(labels[..i], answers[..i])
    {
      var name := cfg.qbits[i];
      var answer := read.qbt(name);
      if answer.Read? {
        qbits := qbits + [answer.value];
      } else {
        errors := errors + [ErrorRow(InstanceLabel("qbittorrent", name), answer.error.kind, answer.error.detail)];
      }
      SuccessesAppend(answers[..i], answer);
      FailuresAppend(labels[..i], answers[..i], InstanceLabel("qbittorrent", name), answer);
      assert answers[..i + 1] == answers[..i] + [answer] && labels[..i + 1] == labels[..i] + [labels[i]];
    }
    assert answers[..|answers|] == answers && labels[..|labels|] == labels;
    ghost var before := errors;
    ghost var arrAnswers, arrLabels := ArrAnswers(cfg, read), ArrLabels(cfg);
    for i := 0 to |cfg.arrs|
      invariant arrs == Successes(arrAnswers[..i])
      invariant errors == before + Failures(arrLabels[..i], arrAnswers[..i])
    {
      var arr := cfg.arrs[i];
      var answer := read.arr(arr);
      if answer.Read? {
        arrs := arrs + [answer.value];
      } else {
        errors := errors + [ErrorRow(InstanceLabel(arr.kind, arr.name), answer.error.kind, answer.error.detail)];
      }
      SuccessesAppend(arrAnswers[..i], answer);
      FailuresAppend(arrLabels[..i], arrAnswers[..i], InstanceLabel(arr.kind, arr.name), answer);
      assert arrAnswers[..i + 1] == arrAnswers[..i] + [answer] && arrLabels[..i + 1] == arrLabels[..i] + [arrLabels[i]];
    }
    assert arrAnswers[..|arrAnswers|] == arrAnswers && arrLabels[..|arrLabels|] == arrLabels;
    facts := StackFacts(qbits, arrs, errors);
  }
}
