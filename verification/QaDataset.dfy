// Resumable answer generation (dataset/qa_dataset.py): two files saved one after the other, a crash possible
// between any two effects, and a restart that resumes from whatever is on disk.
module QaDataset {
  import opened Wrappers

  datatype Answer = Answer(id: nat, text: string)
  datatype Qid = Qid(text: string)
  datatype Pair = Pair(qid: Qid, aid: nat)

  // None: the file does not exist. A file saved with no records has no columns.
  datatype Disk = Disk(answers: Option<seq<Answer>>, pairs: Option<seq<Pair>>)

  // The variables of one run. `asked` records, for each query position, the calls to the model so far; `failed`
  // the positions given up on.
  datatype Memory = Memory(answers: seq<Answer>, pairs: seq<Pair>, nextId: nat, processed: set<Qid>,
    asked: multiset<nat>, failed: set<nat>)

  // Where the run is: at query i after t failed calls, between the two saves, done, or not running.
  datatype Phase =
    | Down
    | Asking(m: Memory, i: nat, t: nat)
    | SavingAnswers(m: Memory, i: nat)
    | SavingPairs(m: Memory, i: nat)
    | Finished(m: Memory)

  datatype State = State(disk: Disk, phase: Phase)

  datatype Job = Job(queries: seq<Qid>, maxRetries: int)

  function Qids(pairs: seq<Pair>): (r: seq<Qid>)
    ensures |r| == |pairs|
  {
    seq(|pairs|, j requires 0 <= j < |pairs| => pairs[j].qid)
  }

  // Reading back: a missing file, or a pairs file without its "qid" column, starts from the empty state.
  function Load(disk: Disk): Memory {
    if disk.answers.None? || disk.pairs.None? || disk.pairs.value == [] then
      Memory([], [], 1, {}, multiset{}, {})
    else
      Memory(disk.answers.value, disk.pairs.value, |disk.answers.value| + 1,
        set q | q in Qids(disk.pairs.value), multiset{}, {})
  }

  // The in-memory effect of one successful call.
  function Answered(m: Memory, qid: Qid, i: nat, text: string): Memory {
    m.(answers := m.answers + [Answer(m.nextId, text)], pairs := m.pairs + [Pair(qid, m.nextId)],
       nextId := m.nextId + 1, asked := m.asked + multiset{i})
  }

  function Asked(m: Memory, i: nat): Memory {
    m.(asked := m.asked + multiset{i})
  }

  // ---------- Steps ----------

  ghost predicate Init(s: State) {
    s == State(Disk(None, None), Down)
  }

  ghost predicate Next(job: Job, s: State, after: State) {
    || after == State(s.disk, Down)  // crash, or the process is simply not running
    || (s.phase.Down? && after == State(s.disk, Asking(Load(s.disk), 0, 0)))
    || AskStep(job, s, after)
    || (s.phase.SavingAnswers? &&
        after == State(s.disk.(answers := Some(s.phase.m.answers)), SavingPairs(s.phase.m, s.phase.i)))
    || (s.phase.SavingPairs? &&
        after == State(s.disk.(pairs := Some(s.phase.m.pairs)), Asking(s.phase.m, s.phase.i + 1, 0)))
  }

  // The query loop between saves: skip a processed query, call the model, count a failed call, give up, or end.
  ghost predicate AskStep(job: Job, s: State, after: State) {
    s.phase.Asking? && after.disk == s.disk &&
    var m, i, t := s.phase.m, s.phase.i, s.phase.t;
    if i >= |job.queries| then after.phase == Finished(m)
    else if job.queries[i] in m.processed then t == 0 && after.phase == Asking(m, i + 1, 0)
    else if t > job.maxRetries then after.phase == Asking(m.(failed := m.failed + {i}), i + 1, 0)
    else
      || (exists text :: after.phase == SavingAnswers(Answered(m, job.queries[i], i, text), i))
      || (t + 1 <= job.maxRetries && after.phase == Asking(Asked(m, i), i, t + 1))
      || (t + 1 > job.maxRetries && after.phase == SavingAnswers(Asked(m, i).(failed := m.failed + {i}), i))
  }

  // ---------- The invariant ----------

  ghost predicate NumberedFromOne(answers: seq<Answer>) {
    forall j :: 0 <= j < |answers| ==> answers[j].id == j + 1
  }

  // Pairs name existing answers, each at most one, in increasing order.
  ghost predicate NamesAnswers(pairs: seq<Pair>, answers: seq<Answer>) {
    (forall j :: 0 <= j < |pairs| ==> 1 <= pairs[j].aid <= |answers|) &&
    forall j, k :: 0 <= j < k < |pairs| ==> pairs[j].aid < pairs[k].aid
  }

  function PairsOf(disk: Disk): seq<Pair> {
    match disk.pairs { case None => [] case Some(ps) => ps }
  }

  function AnswersOf(disk: Disk): seq<Answer> {
    match disk.answers { case None => [] case Some(answers) => answers }
  }

  // What the files promise at every moment, crashes included.
  ghost predicate DiskOk(job: Job, disk: Disk) {
    && NumberedFromOne(AnswersOf(disk))
    && NamesAnswers(PairsOf(disk), AnswersOf(disk))
    && multiset(Qids(PairsOf(disk))) <= multiset(job.queries)
  }

  // The run's variables when the first n queries are behind it.
  ghost predicate MemoryOk(job: Job, m: Memory, n: nat) {
    match m case Memory(answers, pairs, nextId, processed, asked, failed) =>
      && n <= |job.queries|
      && NumberedFromOne(answers) && nextId == |answers| + 1
      && NamesAnswers(pairs, answers)
      && (forall q :: q in processed ==> q in Qids(pairs))
      && OncePerQuery(job, pairs, processed, n)
      && AnsweredOrFailed(job, pairs, failed, n)
      && CallsOk(job, asked, n)
  }

  // A query already on disk is not answered again; any other at most once for each time it was reached.
  ghost predicate OncePerQuery(job: Job, pairs: seq<Pair>, processed: set<Qid>, n: nat)
    requires n <= |job.queries|
  {
    forall q :: multiset(Qids(pairs))[q] <=
      if q in processed then multiset(job.queries)[q] else multiset(job.queries[..n])[q]
  }

  ghost predicate AnsweredOrFailed(job: Job, pairs: seq<Pair>, failed: set<nat>, n: nat)
    requires n <= |job.queries|
  {
    (forall j :: 0 <= j < n && j !in failed ==> job.queries[j] in Qids(pairs)) &&
    forall j :: j in failed ==> j < n
  }

  ghost predicate CallsOk(job: Job, asked: multiset<nat>, n: nat) {
    (forall j :: asked[j] <= Limit(job)) && forall j :: j > n ==> asked[j] == 0
  }

  // The most calls one query gets in one run.
  function Limit(job: Job): nat {
    if job.maxRetries < 0 then 0 else job.maxRetries + 1
  }

  // The files hold what the run holds. With no pair recorded the answers file may still hold orphans of an
  // interrupted first save, which the next load drops.
  ghost predicate Synced(m: Memory, disk: Disk) {
    PairsOf(disk) == m.pairs && (m.pairs != [] ==> disk.answers == Some(m.answers))
  }

  // The run holds what the files hold, and possibly more.
  ghost predicate Ahead(m: Memory, disk: Disk) {
    PairsOf(disk) <= m.pairs && (PairsOf(disk) != [] ==> AnswersOf(disk) <= m.answers)
  }

  ghost predicate Inv(job: Job, s: State) {
    DiskOk(job, s.disk) &&
    match s.phase
    case Down => true
    case Asking(m, i, t) =>
      MemoryOk(job, m, i) && Synced(m, s.disk) && m.asked[i] == t && t <= Limit(job)
    case SavingAnswers(m, i) =>
      MemoryOk(job, m, i + 1) && m.asked[i + 1] == 0 && Ahead(m, s.disk)
    case SavingPairs(m, i) =>
      MemoryOk(job, m, i + 1) && m.asked[i + 1] == 0 && s.disk.answers == Some(m.answers) && PairsOf(s.disk) <= m.pairs
    case Finished(m) =>
      MemoryOk(job, m, |job.queries|) && Synced(m, s.disk)
  }

  lemma InitInv(job: Job, s: State)
    requires Init(s)
    ensures Inv(job, s)
  {
  }

  lemma QidsAppend(pairs: seq<Pair>, p: Pair)
    ensures Qids(pairs + [p]) == Qids(pairs) + [p.qid]
  {
  }

  lemma OneMoreQuery(job: Job, i: nat)
    requires i < |job.queries|
    ensures multiset(job.queries[..i + 1]) == multiset(job.queries[..i]) + multiset{job.queries[i]}
  {
    assert job.queries[..i + 1] == job.queries[..i] + [job.queries[i]];
  }

  lemma OncePerQueryGrows(job: Job, pairs: seq<Pair>, processed: set<Qid>, i: nat)
    requires i < |job.queries| && OncePerQuery(job, pairs, processed, i)
    ensures OncePerQuery(job, pairs, processed, i + 1)
  {
    OneMoreQuery(job, i);
  }

  lemma OncePerQueryAnswered(job: Job, pairs: seq<Pair>, processed: set<Qid>, i: nat, aid: nat)
    requires i < |job.queries| && job.queries[i] !in processed && OncePerQuery(job, pairs, processed, i)
    ensures OncePerQuery(job, pairs + [Pair(job.queries[i], aid)], processed, i + 1)
  {
    OneMoreQuery(job, i);
    QidsAppend(pairs, Pair(job.queries[i], aid));
  }

  lemma AnsweredOk(job: Job, m: Memory, i: nat, text: string)
    requires i < |job.queries| && job.queries[i] !in m.processed
    requires MemoryOk(job, m, i) && m.asked[i] < Limit(job)
    ensures MemoryOk(job, Answered(m, job.queries[i], i, text), i + 1)
  {
    hide OncePerQuery;
    var qid := job.queries[i];
    OncePerQueryAnswered(job, m.pairs, m.processed, i, m.nextId);
    QidsAppend(m.pairs, Pair(qid, m.nextId));
    assert (Qids(m.pairs) + [qid])[|m.pairs|] == qid;
  }

  lemma SkipOk(job: Job, m: Memory, i: nat)
    requires i < |job.queries| && MemoryOk(job, m, i) && m.asked[i] == 0
    requires job.queries[i] in m.processed
    ensures MemoryOk(job, m, i + 1) && m.asked[i + 1] == 0
  {
    OncePerQueryGrows(job, m.pairs, m.processed, i);
  }

  lemma GiveUpOk(job: Job, m: Memory, i: nat, asked: multiset<nat>)
    requires i < |job.queries| && MemoryOk(job, m, i)
    requires asked == m.asked || (m.asked[i] < Limit(job) && asked == m.asked + multiset{i})
    ensures MemoryOk(job, m.(asked := asked, failed := m.failed + {i}), i + 1) && asked[i + 1] == 0
  {
    OncePerQueryGrows(job, m.pairs, m.processed, i);
  }

  lemma LoadOk(job: Job, disk: Disk)
    requires DiskOk(job, disk)
    ensures MemoryOk(job, Load(disk), 0) && Synced(Load(disk), disk)
  {
    var m := Load(disk);
    assert Qids([]) == [];
    forall q ensures multiset(Qids(m.pairs))[q] <=
        if q in m.processed then multiset(job.queries)[q] else multiset(job.queries[..0])[q] {
      if q !in m.processed {
        assert q !in Qids(m.pairs);
      }
    }
  }

  // Every kind of step, crashes included, keeps the invariant.
  lemma InvNext(job: Job, s: State, after: State)
    requires Inv(job, s) && Next(job, s, after)
    ensures Inv(job, after)
  {
    if after == State(s.disk, Down) {
    } else if s.phase.Down? {
      LoadOk(job, s.disk);
    } else if s.phase.Asking? {
      AskInv(job, s, after);
    } else if s.phase.SavingAnswers? {
      SaveAnswersInv(job, s.disk, s.phase.m, s.phase.i);
    } else {
      SavePairsInv(job, s.disk, s.phase.m, s.phase.i);
    }
  }

  // With the answers saved and the pairs not yet, the old pairs still name the answers they named.
  lemma SaveAnswersInv(job: Job, disk: Disk, m: Memory, i: nat)
    requires Inv(job, State(disk, SavingAnswers(m, i)))
    ensures Inv(job, State(disk.(answers := Some(m.answers)), SavingPairs(m, i)))
  {
    assert PairsOf(disk.(answers := Some(m.answers))) == PairsOf(disk);
    assert NamesAnswers(PairsOf(disk), m.answers);
  }

  lemma SavePairsInv(job: Job, disk: Disk, m: Memory, i: nat)
    requires Inv(job, State(disk, SavingPairs(m, i)))
    ensures Inv(job, State(disk.(pairs := Some(m.pairs)), Asking(m, i + 1, 0)))
  {
    hide OncePerQuery, CallsOk;
    PairsBounded(job, m, i + 1);
  }

  lemma PairsBounded(job: Job, m: Memory, n: nat)
    requires MemoryOk(job, m, n)
    ensures multiset(Qids(m.pairs)) <= multiset(job.queries)
  {
    assert job.queries == job.queries[..n] + job.queries[n..];
    forall q ensures multiset(Qids(m.pairs))[q] <= multiset(job.queries)[q] {}
  }

  lemma RetryInv(job: Job, disk: Disk, m: Memory, i: nat, t: nat)
    requires i < |job.queries| && t < Limit(job) && Inv(job, State(disk, Asking(m, i, t)))
    ensures Inv(job, State(disk, Asking(Asked(m, i), i, t + 1)))
  {
    assert MemoryOk(job, Asked(m, i), i);
  }

  lemma GiveUpInv(job: Job, disk: Disk, m: Memory, i: nat, t: nat)
    requires i < |job.queries| && t < Limit(job) && Inv(job, State(disk, Asking(m, i, t)))
    ensures Inv(job, State(disk, SavingAnswers(Asked(m, i).(failed := m.failed + {i}), i)))
  {
    GiveUpOk(job, m, i, m.asked + multiset{i});
    var given := Asked(m, i).(failed := m.failed + {i});
    assert Ahead(given, disk);
    SavingInv(job, disk, given, i);
  }

  lemma AnswerInv(job: Job, disk: Disk, m: Memory, i: nat, t: nat, text: string)
    requires i < |job.queries| && job.queries[i] !in m.processed
    requires t < Limit(job) && Inv(job, State(disk, Asking(m, i, t)))
    ensures Inv(job, State(disk, SavingAnswers(Answered(m, job.queries[i], i, text), i)))
  {
    AnsweredOk(job, m, i, text);
    AnsweredAhead(m, disk, job.queries[i], i, text);
    SavingInv(job, disk, Answered(m, job.queries[i], i, text), i);
  }

  lemma SavingInv(job: Job, disk: Disk, m: Memory, i: nat)
    requires DiskOk(job, disk) && MemoryOk(job, m, i + 1) && m.asked[i + 1] == 0 && Ahead(m, disk)
    ensures Inv(job, State(disk, SavingAnswers(m, i)))
  {
  }

  lemma AnsweredAhead(m: Memory, disk: Disk, qid: Qid, i: nat, text: string)
    requires Synced(m, disk) && m.asked[i + 1] == 0
    ensures Ahead(Answered(m, qid, i, text), disk) && Answered(m, qid, i, text).asked[i + 1] == 0
  {
  }

  lemma IndexOk(job: Job, m: Memory, i: nat)
    requires MemoryOk(job, m, i)
    ensures i <= |job.queries|
  {
  }

  lemma AskInv(job: Job, s: State, after: State)
    requires Inv(job, s) && AskStep(job, s, after)
    ensures Inv(job, after)
  {
    hide MemoryOk, DiskOk;
    var m, i, t := s.phase.m, s.phase.i, s.phase.t;
    if i >= |job.queries| {
      IndexOk(job, m, i);
    } else if job.queries[i] in m.processed {
      SkipOk(job, m, i);
    } else if t > job.maxRetries {
      GiveUpOk(job, m, i, m.asked);
    } else {
      CallInv(job, s, after);
    }
  }

  lemma CallInv(job: Job, s: State, after: State)
    requires Inv(job, s) && AskStep(job, s, after) && s.phase.i < |job.queries|
    requires job.queries[s.phase.i] !in s.phase.m.processed && s.phase.t <= job.maxRetries
    ensures Inv(job, after)
  {
    var m, i, t := s.phase.m, s.phase.i, s.phase.t;
    assert s == State(s.disk, Asking(m, i, t));
    if after.phase.Asking? {
      RetryInv(job, s.disk, m, i, t);
    } else if after.phase == SavingAnswers(Asked(m, i).(failed := m.failed + {i}), i) {
      GiveUpInv(job, s.disk, m, i, t);
    } else {
      var text :| after.phase == SavingAnswers(Answered(m, job.queries[i], i, text), i);
      AnswerInv(job, s.disk, m, i, t, text);
    }
  }

  // ---------- Every run ----------

  // A history: any number of starts, crashes and restarts, from an empty output directory.
  ghost predicate IsHistory(job: Job, h: seq<State>) {
    h != [] && Init(h[0]) && forall n :: 0 <= n < |h| - 1 ==> Next(job, h[n], h[n + 1])
  }

  lemma {:induction false} HistoryInv(job: Job, h: seq<State>, n: nat)
    requires IsHistory(job, h) && n < |h|
    ensures Inv(job, h[n])
  {
    if n == 0 {
      InitInv(job, h[0]);
    } else {
      HistoryInv(job, h, n - 1);
      assert Next(job, h[n - 1], h[n - 1 + 1]);
      InvNext(job, h[n - 1], h[n]);
    }
  }

  ghost predicate Distinct<T>(s: seq<T>) {
    forall j, k :: 0 <= j < k < |s| ==> s[j] != s[k]
  }

  lemma {:induction false} DistinctCounts<T>(s: seq<T>)
    ensures Distinct(s) <==> forall x :: multiset(s)[x] <= 1
  {
    if s != [] {
      var front, last := s[..|s| - 1], s[|s| - 1];
      DistinctCounts(front);
      assert s == front + [last];
      if Distinct(s) {
        assert Distinct(front);
        assert last !in front;
        forall x ensures multiset(s)[x] <= 1 {}
      } else {
        if Distinct(front) {
          assert last in front;
          assert multiset(s)[last] >= 2;
        } else {
          var x :| multiset(front)[x] > 1;
          assert multiset(s)[x] > 1;
        }
      }
    }
  }

  // At every moment of every history: answer ids on disk are exactly 1..n, every pair names one of them, no two
  // pairs name the same answer, and, the queries being distinct, no query is answered twice.
  lemma FilesAlwaysConsistent(job: Job, h: seq<State>, n: nat)
    requires IsHistory(job, h) && n < |h|
    ensures var disk := h[n].disk;
      && NumberedFromOne(AnswersOf(disk))
      && NamesAnswers(PairsOf(disk), AnswersOf(disk))
      && (Distinct(job.queries) ==> Distinct(Qids(PairsOf(disk))))
  {
    HistoryInv(job, h, n);
    var disk := h[n].disk;
    if Distinct(job.queries) {
      DistinctCounts(job.queries);
      forall q ensures multiset(Qids(PairsOf(disk)))[q] <= 1 {
        assert multiset(Qids(PairsOf(disk)))[q] <= multiset(job.queries)[q];
      }
      DistinctCounts(Qids(PairsOf(disk)));
    }
  }

  ghost predicate InRun(phase: Phase) {
    !phase.Down?
  }

  // Within a run no query position gets more than max_retries + 1 calls.
  lemma AttemptsBounded(job: Job, h: seq<State>, n: nat, j: nat)
    requires IsHistory(job, h) && n < |h| && InRun(h[n].phase)
    ensures h[n].phase.m.asked[j] <= Limit(job)
  {
    HistoryInv(job, h, n);
  }

  // A run that ends with no failed query has a pair on disk for every query, and, the queries being distinct,
  // exactly one.
  lemma FinishedRunCovers(job: Job, h: seq<State>, n: nat, q: Qid)
    requires IsHistory(job, h) && n < |h| && h[n].phase.Finished? && h[n].phase.m.failed == {}
    requires q in job.queries
    ensures q in Qids(PairsOf(h[n].disk))
    ensures Distinct(job.queries) ==> multiset(Qids(PairsOf(h[n].disk)))[q] == 1
  {
    HistoryInv(job, h, n);
    var j :| 0 <= j < |job.queries| && job.queries[j] == q;
    if Distinct(job.queries) {
      FilesAlwaysConsistent(job, h, n);
      DistinctCounts(Qids(PairsOf(h[n].disk)));
    }
  }

  // What a later disk keeps of an earlier one: all its pairs, first and in order, and the texts they name.
  ghost predicate Keeps(older: Disk, newer: Disk) {
    PairsOf(older) <= PairsOf(newer) &&
    forall j :: 0 <= j < |PairsOf(older)| ==>
      var aid := PairsOf(older)[j].aid;
      1 <= aid <= |AnswersOf(older)| && aid <= |AnswersOf(newer)| &&
      AnswersOf(newer)[aid - 1] == AnswersOf(older)[aid - 1]
  }

  lemma KeepsTransitive(a: Disk, b: Disk, c: Disk)
    requires Keeps(a, b) && Keeps(b, c)
    ensures Keeps(a, c)
  {
    forall j | 0 <= j < |PairsOf(a)|
      ensures var aid := PairsOf(a)[j].aid;
        1 <= aid <= |AnswersOf(a)| && aid <= |AnswersOf(c)| && AnswersOf(c)[aid - 1] == AnswersOf(a)[aid - 1]
    {
      assert PairsOf(b)[j] == PairsOf(a)[j];
    }
  }

  lemma StepKeeps(job: Job, s: State, after: State)
    requires Inv(job, s) && Next(job, s, after)
    ensures Keeps(s.disk, after.disk)
  {
  }

  lemma KeepsItself(job: Job, s: State)
    requires Inv(job, s)
    ensures Keeps(s.disk, s.disk)
  {
  }

  lemma HistoryStep(job: Job, h: seq<State>, k: nat)
    requires IsHistory(job, h) && k + 1 < |h|
    ensures Inv(job, h[k]) && Next(job, h[k], h[k + 1])
  {
    HistoryInv(job, h, k);
  }

  // One step, as the two states it leads from and to.
  lemma HistoryKeeps(job: Job, h: seq<State>, k: nat, s: State, after: State)
    requires IsHistory(job, h) && k + 1 < |h| && s == h[k] && after == h[k + 1]
    ensures Keeps(s.disk, after.disk)
  {
    HistoryStep(job, h, k);
    StepKeeps(job, s, after);
  }

  // No answer recorded on disk is ever lost or changed, whatever crashes and restarts follow.
  lemma {:induction false} NothingLost(job: Job, h: seq<State>, n: nat, k: nat)
    requires IsHistory(job, h) && n <= k < |h|
    ensures Keeps(h[n].disk, h[k].disk)
  {
    if n == k {
      HistoryInv(job, h, k);
      KeepsItself(job, h[k]);
    } else {
      var before, last := h[k - 1], h[k];
      NothingLost(job, h, n, k - 1);
      HistoryKeeps(job, h, k - 1, before, last);
      KeepsTransitive(h[n].disk, before.disk, last.disk);
    }
  }

  lemma HistoryExtends(job: Job, h: seq<State>, s: State)
    requires IsHistory(job, h) && Next(job, h[|h| - 1], s)
    ensures IsHistory(job, h + [s])
  {
    var longer := h + [s];
    forall n | 0 <= n < |longer| - 1 ensures Next(job, longer[n], longer[n + 1]) {
      if n < |h| - 1 {
        assert longer[n] == h[n] && longer[n + 1] == h[n + 1];
      }
    }
  }

  // A run in which every call succeeds at once, up to query n.
  lemma {:induction false} AnswersInTurn(job: Job, n: nat) returns (h: seq<State>, m: Memory, disk: Disk)
    requires job.maxRetries >= 0 && n <= |job.queries|
    ensures IsHistory(job, h) && h[|h| - 1] == State(disk, Asking(m, n, 0))
    ensures m.processed == {} && Qids(m.pairs) == job.queries[..n] && PairsOf(disk) == m.pairs
  {
    if n == 0 {
      disk := Disk(None, None);
      m := Load(disk);
      h := [State(disk, Down)];
      HistoryExtends(job, h, State(disk, Asking(m, 0, 0)));
      h := h + [State(disk, Asking(m, 0, 0))];
    } else {
      var i: nat := n - 1;
      var before: Memory;
      h, before, disk := AnswersInTurn(job, i);
      m := Answered(before, job.queries[i], i, "");
      QidsAppend(before.pairs, Pair(job.queries[i], before.nextId));
      assert job.queries[..n] == job.queries[..i] + [job.queries[i]];
      HistoryExtends(job, h, State(disk, SavingAnswers(m, i)));
      h := h + [State(disk, SavingAnswers(m, i))];
      disk := disk.(answers := Some(m.answers));
      HistoryExtends(job, h, State(disk, SavingPairs(m, i)));
      h := h + [State(disk, SavingPairs(m, i))];
      disk := disk.(pairs := Some(m.pairs));
      HistoryExtends(job, h, State(disk, Asking(m, n, 0)));
      h := h + [State(disk, Asking(m, n, 0))];
    }
  }

  // The last files of a history answer no query twice.
  ghost predicate NoneTwice(h: seq<State>) {
    h != [] ==> Distinct(Qids(PairsOf(h[|h| - 1].disk)))
  }

  // No history answers a query twice exactly if the query ids are distinct.
  lemma NoneTwiceIffDistinct(job: Job)
    requires job.maxRetries >= 0
    ensures (forall h :: IsHistory(job, h) ==> NoneTwice(h)) <==> Distinct(job.queries)
  {
    if Distinct(job.queries) {
      forall h | IsHistory(job, h) ensures NoneTwice(h) {
        FilesAlwaysConsistent(job, h, |h| - 1);
      }
    } else {
      var h, m, disk := AnswersInTurn(job, |job.queries|);
      assert job.queries[..|job.queries|] == job.queries;
      assert !NoneTwice(h);
    }
  }

  // ---------- What one run records of the model's replies ----------

  // `reply(i, t)` is the model's reply to call t for query i, None standing for an API error.
  type Replies = (nat, nat) -> Option<string>

  // The first of the replies from call t on, up to the retry limit, that is no error.
  function FirstReply(reply: Replies, i: nat, t: nat, maxRetries: int): Option<string>
    decreases maxRetries + 1 - t
  {
    if t > maxRetries then None
    else if reply(i, t).Some? then reply(i, t)
    else FirstReply(reply, i, t + 1, maxRetries)
  }

  datatype Files = Files(answers: seq<Answer>, pairs: seq<Pair>)

  // The records after the first n queries of a run that loaded `start`: one answer, numbered next, and one pair for
  // each query that was not on disk and got a reply.
  function Recorded(job: Job, reply: Replies, start: Disk, n: nat): Files
    requires n <= |job.queries|
  {
    if n == 0 then Files(Load(start).answers, Load(start).pairs)
    else
      var before, qid := Recorded(job, reply, start, n - 1), job.queries[n - 1];
      if qid in Load(start).processed then before
      else
        match FirstReply(reply, n - 1, 0, job.maxRetries)
        case None => before
        case Some(text) =>
          var id := |before.answers| + 1;
          Files(before.answers + [Answer(id, text)], before.pairs + [Pair(qid, id)])
  }

  predicate Resumes(start: Disk) {
    start.answers.Some? && start.pairs.Some? && start.pairs.value != []
  }

  // Without both files, or with no pair recorded, a run begins from nothing; otherwise from the files as they are.
  lemma {:induction false} BeginsFrom(job: Job, reply: Replies, start: Disk, n: nat)
    requires n <= |job.queries|
    ensures !Resumes(start) ==> Recorded(job, reply, start, n) == Recorded(job, reply, Disk(None, None), n)
    ensures Resumes(start) ==>
      var files := Recorded(job, reply, start, n);
      && start.answers.value <= files.answers && start.pairs.value <= files.pairs
      && |files.answers| - |start.answers.value| == |files.pairs| - |start.pairs.value|
      && forall k :: |start.pairs.value| <= k < |files.pairs| ==> files.pairs[k].qid !in Qids(start.pairs.value)
  {
    if n > 0 {
      BeginsFrom(job, reply, start, n - 1);
    }
  }

  // Whether the model was called for one of the first n queries, so that the files were saved.
  predicate AnyAsked(job: Job, start: Disk, n: nat)
    requires n <= |job.queries|
  {
    job.maxRetries >= 0 && exists j :: 0 <= j < n && job.queries[j] !in Load(start).processed
  }

  function DiskAfter(job: Job, reply: Replies, start: Disk, n: nat): Disk
    requires n <= |job.queries|
  {
    if AnyAsked(job, start, n) then
      var files := Recorded(job, reply, start, n);
      Disk(Some(files.answers), Some(files.pairs))
    else start
  }

  // A run ends between two queries, or between the two saves of one.
  ghost predicate IsDiskOf(job: Job, reply: Replies, start: Disk, n: nat, disk: Disk) {
    n <= |job.queries| &&
    (disk == DiskAfter(job, reply, start, n) ||
     (n < |job.queries| && job.queries[n] !in Load(start).processed && job.maxRetries >= 0 &&
      disk == DiskAfter(job, reply, start, n).(answers := Some(Recorded(job, reply, start, n + 1).answers))))
  }

  // The text is the reply to a call for this query, and every earlier call for it failed.
  ghost predicate IsReply(job: Job, reply: Replies, i: nat, t: nat, q: Qid, text: string) {
    i < |job.queries| && job.queries[i] == q && t <= job.maxRetries && reply(i, t) == Some(text) &&
    forall u :: 0 <= u < t ==> reply(i, u).None?
  }

  ghost predicate RepliesTo(job: Job, reply: Replies, q: Qid, text: string) {
    exists i, t :: IsReply(job, reply, i, t, q, text)
  }

  lemma {:induction false} FirstReplyIs(reply: Replies, i: nat, t: nat, maxRetries: int) returns (u: nat)
    ensures t <= u && forall v :: t <= v < u ==> reply(i, v).None?
    ensures FirstReply(reply, i, t, maxRetries).Some? ==>
      u <= maxRetries && reply(i, u) == FirstReply(reply, i, t, maxRetries)
    ensures FirstReply(reply, i, t, maxRetries).None? ==> u > maxRetries
    decreases maxRetries + 1 - t
  {
    u := t;
    if t <= maxRetries && reply(i, t).None? {
      u := FirstReplyIs(reply, i, t + 1, maxRetries);
    }
  }

  // The records begin with those loaded; every pair after them names an answer whose text is a reply to its query,
  // which was not on disk.
  ghost predicate AreReplies(job: Job, reply: Replies, start: Disk, answers: seq<Answer>, pairs: seq<Pair>) {
    && Load(start).answers <= answers && Load(start).pairs <= pairs
    && forall k :: |Load(start).pairs| <= k < |pairs| ==> IsNewReply(job, reply, start, answers, pairs[k])
  }

  ghost predicate IsNewReply(job: Job, reply: Replies, start: Disk, answers: seq<Answer>, p: Pair) {
    && p.qid !in Load(start).processed
    && |Load(start).answers| < p.aid <= |answers| && answers[p.aid - 1].id == p.aid
    && RepliesTo(job, reply, p.qid, answers[p.aid - 1].text)
  }

  lemma {:induction false} RecordedAreReplies(job: Job, reply: Replies, start: Disk, n: nat)
    requires n <= |job.queries|
    ensures var files := Recorded(job, reply, start, n); AreReplies(job, reply, start, files.answers, files.pairs)
  {
    hide Load, RepliesTo;
    if n > 0 {
      RecordedAreReplies(job, reply, start, n - 1);
      var before := Recorded(job, reply, start, n - 1);
      var i: nat := n - 1;
      var text := FirstReply(reply, i, 0, job.maxRetries);
      if job.queries[i] !in Load(start).processed && text.Some? {
        ReplyGiven(job, reply, i);
        OneMoreReply(job, reply, start, before, job.queries[i], text.value);
      }
    }
  }

  lemma ReplyGiven(job: Job, reply: Replies, i: nat)
    requires i < |job.queries| && FirstReply(reply, i, 0, job.maxRetries).Some?
    ensures RepliesTo(job, reply, job.queries[i], FirstReply(reply, i, 0, job.maxRetries).value)
  {
    var t := FirstReplyIs(reply, i, 0, job.maxRetries);
    assert IsReply(job, reply, i, t, job.queries[i], FirstReply(reply, i, 0, job.maxRetries).value);
  }

  lemma OneMoreReply(job: Job, reply: Replies, start: Disk, before: Files, q: Qid, text: string)
    requires AreReplies(job, reply, start, before.answers, before.pairs)
    requires q !in Load(start).processed && RepliesTo(job, reply, q, text)
    ensures var id := |before.answers| + 1;
      AreReplies(job, reply, start, before.answers + [Answer(id, text)], before.pairs + [Pair(q, id)])
  {
    hide Load, RepliesTo;
    var id := |before.answers| + 1;
    var answers, pairs := before.answers + [Answer(id, text)], before.pairs + [Pair(q, id)];
    forall k | |Load(start).pairs| <= k < |pairs| ensures IsNewReply(job, reply, start, answers, pairs[k]) {
      if k < |before.pairs| {
        assert pairs[k] == before.pairs[k] && IsNewReply(job, reply, start, before.answers, before.pairs[k]);
      }
    }
  }

  // At whatever point a run ends, every pair on disk that it did not find there records a reply.
  lemma DiskHoldsReplies(job: Job, reply: Replies, start: Disk, n: nat, disk: Disk)
    requires IsDiskOf(job, reply, start, n, disk) && disk.pairs != start.pairs
    ensures disk.answers.Some? && disk.pairs.Some?
    ensures AreReplies(job, reply, start, disk.answers.value, disk.pairs.value)
  {
    hide Load, AreReplies;
    RecordedAreReplies(job, reply, start, n);
    if n < |job.queries| {
      MoreAnswersAreReplies(job, reply, start, n);
    }
  }

  lemma MoreAnswersAreReplies(job: Job, reply: Replies, start: Disk, n: nat)
    requires n < |job.queries|
    ensures AreReplies(job, reply, start, Recorded(job, reply, start, n + 1).answers,
      Recorded(job, reply, start, n).pairs)
  {
    hide Load, RepliesTo, FirstReply;
    RecordedAreReplies(job, reply, start, n);
    RecordedAreReplies(job, reply, start, n + 1);
    var now, next := Recorded(job, reply, start, n), Recorded(job, reply, start, n + 1);
    assert now.pairs <= next.pairs;
    forall k | |Load(start).pairs| <= k < |now.pairs|
      ensures IsNewReply(job, reply, start, next.answers, now.pairs[k])
    {
      assert now.pairs[k] == next.pairs[k];
    }
  }

  // A query not on disk has a pair after the run exactly if, at one of its positions, some call within the retry
  // limit got a reply.
  lemma {:induction false} RecordedIff(job: Job, reply: Replies, start: Disk, n: nat, q: Qid)
    requires n <= |job.queries| && q !in Load(start).processed
    ensures q in Qids(Recorded(job, reply, start, n).pairs) <==>
      exists i, t :: 0 <= i < n && job.queries[i] == q && 0 <= t <= job.maxRetries && reply(i, t).Some?
  {
    if n == 0 {
      assert q !in Qids(Load(start).pairs);
    } else {
      RecordedIff(job, reply, start, n - 1, q);
      var i: nat := n - 1;
      var t := FirstReplyIs(reply, i, 0, job.maxRetries);
      var before := Recorded(job, reply, start, i);
      QidsAppend(before.pairs, Pair(job.queries[i], |before.answers| + 1));
      if job.queries[i] == q && FirstReply(reply, i, 0, job.maxRetries).Some? {
        assert 0 <= i < n && job.queries[i] == q && 0 <= t <= job.maxRetries && reply(i, t).Some?;
      }
    }
  }

  // The same for the files a run leaves that completes.
  lemma CompletedIff(job: Job, reply: Replies, start: Disk, q: Qid)
    requires q in job.queries && (Resumes(start) ==> q !in Qids(start.pairs.value)) && job.maxRetries >= 0
    ensures var disk := DiskAfter(job, reply, start, |job.queries|);
      disk.pairs.Some? &&
      (q in Qids(disk.pairs.value) <==>
        exists i, t :: 0 <= i < |job.queries| && job.queries[i] == q && 0 <= t <= job.maxRetries && reply(i, t).Some?)
  {
    RecordedIff(job, reply, start, |job.queries|, q);
  }

  // ---------- The program ----------

  // A stretch of steps of one process.
  ghost predicate IsRun(job: Job, run: seq<State>) {
    run != [] && forall n :: 0 <= n < |run| - 1 ==> Next(job, run[n], run[n + 1])
  }

  lemma RunExtends(job: Job, run: seq<State>, s: State)
    requires IsRun(job, run) && Next(job, run[|run| - 1], s)
    ensures IsRun(job, run + [s])
  {
    var longer := run + [s];
    forall n | 0 <= n < |longer| - 1 ensures Next(job, longer[n], longer[n + 1]) {
      if n < |run| - 1 {
        assert longer[n] == run[n] && longer[n + 1] == run[n + 1];
      }
    }
  }

  // The most calls and saves a run makes for k queries.
  function Effort(job: Job, k: nat): nat {
    if k == 0 then 0 else Effort(job, k - 1) + Limit(job) + 2
  }

  lemma EffortStep(job: Job, k: nat)
    requires k > 0
    ensures Effort(job, k) >= Effort(job, k - 1)
    ensures job.maxRetries >= 0 ==> Effort(job, k) == Effort(job, k - 1) + job.maxRetries + 3
  {
  }

  // Between two queries: the run's variables and the files as they are then.
  ghost predicate AtQuery(job: Job, reply: Replies, start: Disk, i: nat, answers: seq<Answer>, pairs: seq<Pair>,
      nextId: nat, disk: Disk) {
    && i <= |job.queries| && Recorded(job, reply, start, i) == Files(answers, pairs)
    && nextId == |answers| + 1 && disk == DiskAfter(job, reply, start, i)
  }

  lemma FilesAt(job: Job, reply: Replies, start: Disk, i: nat, answers: seq<Answer>, pairs: seq<Pair>, nextId: nat,
      disk: Disk)
    requires AtQuery(job, reply, start, i, answers, pairs, nextId, disk)
    ensures i <= |job.queries| && Recorded(job, reply, start, i) == Files(answers, pairs) && nextId == |answers| + 1
  {
    hide Recorded, DiskAfter;
  }

  lemma SkipAt(job: Job, reply: Replies, start: Disk, i: nat, answers: seq<Answer>, pairs: seq<Pair>, nextId: nat,
      disk: Disk)
    requires AtQuery(job, reply, start, i, answers, pairs, nextId, disk) && i < |job.queries|
    requires job.queries[i] in Load(start).processed || job.maxRetries < 0
    ensures AtQuery(job, reply, start, i + 1, answers, pairs, nextId, disk)
  {
    hide Load;
    assert AnyAsked(job, start, i + 1) ==> AnyAsked(job, start, i);
  }

  // After query i has its first reply, or as many errors as it may have, the records are those up to query i + 1.
  lemma CalledAt(job: Job, reply: Replies, start: Disk, i: nat, answers: seq<Answer>, pairs: seq<Pair>, nextId: nat,
      disk: Disk)
    requires AtQuery(job, reply, start, i, answers, pairs, nextId, disk) && i < |job.queries|
    requires job.queries[i] !in Load(start).processed && job.maxRetries >= 0
    ensures var after := Recorded(job, reply, start, i + 1);
      && after == (match FirstReply(reply, i, 0, job.maxRetries)
                   case None => Files(answers, pairs)
                   case Some(text) =>
                     Files(answers + [Answer(nextId, text)], pairs + [Pair(job.queries[i], nextId)]))
      && AtQuery(job, reply, start, i + 1, after.answers, after.pairs, |after.answers| + 1,
           Disk(Some(after.answers), Some(after.pairs)))
      && IsDiskOf(job, reply, start, i, disk)
      && IsDiskOf(job, reply, start, i, disk.(answers := Some(after.answers)))
  {
    hide Load, FirstReply;
  }

  lemma StartAt(job: Job, reply: Replies, start: Disk)
    ensures var m := Load(start); AtQuery(job, reply, start, 0, m.answers, m.pairs, m.nextId, start)
    ensures IsRun(job, [State(start, Down), State(start, Asking(Load(start), 0, 0))])
  {
  }

  lemma EndAt(job: Job, reply: Replies, start: Disk, answers: seq<Answer>, pairs: seq<Pair>, nextId: nat, disk: Disk)
    requires AtQuery(job, reply, start, |job.queries|, answers, pairs, nextId, disk)
    ensures disk == DiskAfter(job, reply, start, |job.queries|)
    ensures IsDiskOf(job, reply, start, |job.queries|, disk)
  {
    hide DiskAfter, Recorded;
  }

  // The run goes on with a step of the query loop, or with a crash.
  lemma RunAsks(job: Job, run: seq<State>, s: State, after: State)
    requires IsRun(job, run) && run[|run| - 1] == s && (AskStep(job, s, after) || after == State(s.disk, Down))
    ensures IsRun(job, run + [after]) && (run + [after])[0] == run[0]
  {
    RunExtends(job, run, after);
  }

  lemma DiskHoldsNew(job: Job, reply: Replies, start: Disk, n: nat, disk: Disk)
    requires IsDiskOf(job, reply, start, n, disk)
    ensures disk.pairs != start.pairs ==>
      disk.answers.Some? && disk.pairs.Some? && AreReplies(job, reply, start, disk.answers.value, disk.pairs.value)
  {
    if disk.pairs != start.pairs {
      DiskHoldsReplies(job, reply, start, n, disk);
    }
  }

  // The output directory.
  class Output {
    var answersFile: Option<seq<Answer>>
    var pairsFile: Option<seq<Pair>>

    constructor ()
      ensures Contents() == Disk(None, None)
    {
      answersFile, pairsFile := None, None;
    }

    function Contents(): Disk
      reads this
    {
      Disk(answersFile, pairsFile)
    }

    // generate_answers. The process dies when `budget`, the number of calls and saves it gets to make, is used up.
    // Whatever the replies and wherever it dies, it takes only steps of the transition system above, and what it
    // puts on disk are the model's replies, in the order of the queries. With enough budget it completes.
    method GenerateAnswers(job: Job, reply: Replies, budget: nat)
      returns (completed: bool, ghost run: seq<State>, ghost reached: nat)
      modifies this
      ensures IsDiskOf(job, reply, old(Contents()), reached, Contents())
      ensures Contents().pairs != old(Contents().pairs) ==>
        Contents().answers.Some? && Contents().pairs.Some? &&
        AreReplies(job, reply, old(Contents()), Contents().answers.value, Contents().pairs.value)
      ensures completed ==> Contents() == DiskAfter(job, reply, old(Contents()), |job.queries|)
      ensures IsRun(job, run) && run[0] == State(old(Contents()), Down)
      ensures run[|run| - 1].disk == Contents()
      ensures completed <==> run[|run| - 1].phase.Finished?
      ensures budget >= Effort(job, |job.queries|) ==> completed
    {
      hide IsRun, Next, AtQuery, DiskAfter, Recorded, IsDiskOf, AreReplies, Load, Effort;
      ghost var enough := budget >= Effort(job, |job.queries|);
      var left: nat := budget;
      var loaded := Load(Contents());
      var answers, pairs, nextId, processed := loaded.answers, loaded.pairs, loaded.nextId, loaded.processed;
      ghost var start, m := Contents(), loaded;
      run := [State(start, Down), State(start, Asking(m, 0, 0))];
      StartAt(job, reply, start);
      reached := 0;
      var i := 0;
      while i < |job.queries|
        invariant 0 <= i <= |job.queries|
        invariant IsRun(job, run) && run != [] && run[0] == State(start, Down)
        invariant run[|run| - 1] == State(Contents(), Asking(m, i, 0))
        invariant m.answers == answers && m.pairs == pairs && m.nextId == nextId && m.processed == processed
        invariant AtQuery(job, reply, start, i, answers, pairs, nextId, Contents())
        invariant enough ==> left >= Effort(job, |job.queries| - i)
      {
        reached := i;
        EffortStep(job, |job.queries| - i);
        var qid := job.queries[i];
        if qid !in processed {
          var retry, answered := 0, false;
          ghost var before, later := Contents(), Effort(job, |job.queries| - i - 1);
          ghost var after := Recorded(job, reply, start, i + 1);
          FilesAt(job, reply, start, i, answers, pairs, nextId, before);
          if job.maxRetries >= 0 {
            CalledAt(job, reply, start, i, answers, pairs, nextId, before);
          }
          while retry <= job.maxRetries && !answered
            invariant 0 <= retry && (answered || retry == 0 || retry <= job.maxRetries + 1)
            invariant IsRun(job, run) && run != [] && run[0] == State(start, Down)
            invariant run[|run| - 1] == State(Contents(),
              if answered || (retry > job.maxRetries && job.maxRetries >= 0) then Asking(m, i + 1, 0)
              else Asking(m, i, retry))
            invariant m.answers == answers && m.pairs == pairs && m.nextId == nextId && m.processed == processed
            invariant nextId == |answers| + 1
            invariant !answered ==>
              FirstReply(reply, i, 0, job.maxRetries) == FirstReply(reply, i, retry, job.maxRetries) &&
              Recorded(job, reply, start, i) == Files(answers, pairs)
            invariant Contents() ==
              if answered || (retry > job.maxRetries && job.maxRetries >= 0) then
                Disk(Some(after.answers), Some(after.pairs))
              else before
            invariant answered ==> after == Files(answers, pairs) && job.maxRetries >= 0
            invariant enough ==>
              left >= later + if answered || retry > job.maxRetries then 0 else job.maxRetries + 3 - retry
            decreases job.maxRetries + 1 - retry, !answered
          {
            if left == 0 {
              RunAsks(job, run, run[|run| - 1], State(Contents(), Down));
              run := run + [State(Contents(), Down)];
              DiskHoldsNew(job, reply, start, i, Contents());
              return false, run, reached;
            }
            left := left - 1;
            match reply(i, retry) {
              case Some(text) =>
                answers := answers + [Answer(nextId, text)];
                pairs := pairs + [Pair(qid, nextId)];
                nextId := nextId + 1;
                m := Answered(m, qid, i, text);
                answered := true;
              case None =>
                retry := retry + 1;
                m := Asked(m, i);
            }
            if answered || retry > job.maxRetries {
              m := if answered then m else m.(failed := m.failed + {i});
              RunAsks(job, run, run[|run| - 1], State(Contents(), SavingAnswers(m, i)));
              run := run + [State(Contents(), SavingAnswers(m, i))];
              var saved;
              saved, left, run := SaveBoth(job, m, i, answers, pairs, left, run);
              if !saved {
                DiskHoldsNew(job, reply, start, i, Contents());
                completed := false;
                return;
              }
            } else {
              RunAsks(job, run, run[|run| - 1], State(Contents(), Asking(m, i, retry)));
              run := run + [State(Contents(), Asking(m, i, retry))];
            }
          }
          if job.maxRetries < 0 {
            SkipAt(job, reply, start, i, answers, pairs, nextId, Contents());
            m := m.(failed := m.failed + {i});
            RunAsks(job, run, run[|run| - 1], State(Contents(), Asking(m, i + 1, 0)));
            run := run + [State(Contents(), Asking(m, i + 1, 0))];
          }
        } else {
          SkipAt(job, reply, start, i, answers, pairs, nextId, Contents());
          RunAsks(job, run, run[|run| - 1], State(Contents(), Asking(m, i + 1, 0)));
          run := run + [State(Contents(), Asking(m, i + 1, 0))];
        }
        i := i + 1;
      }
      RunAsks(job, run, run[|run| - 1], State(Contents(), Finished(m)));
      run := run + [State(Contents(), Finished(m))];
      reached := |job.queries|;
      EndAt(job, reply, start, answers, pairs, nextId, Contents());
      DiskHoldsNew(job, reply, start, reached, Contents());
      completed := true;
    }

    // The two saves, answers first; the process may die before either.
    method SaveBoth(job: Job, ghost m: Memory, ghost i: nat, answers: seq<Answer>, pairs: seq<Pair>, budget: nat,
        ghost run: seq<State>)
      returns (saved: bool, left: nat, ghost runAfter: seq<State>)
      requires IsRun(job, run) && run[|run| - 1] == State(Contents(), SavingAnswers(m, i))
      requires m.answers == answers && m.pairs == pairs
      modifies this
      ensures IsRun(job, runAfter) && runAfter != [] && runAfter[0] == run[0]
      ensures runAfter[|runAfter| - 1] == State(Contents(), if saved then Asking(m, i + 1, 0) else Down)
      ensures saved <==> budget >= 2
      ensures saved ==> left == budget - 2
      ensures if saved then Contents() == Disk(Some(answers), Some(pairs))
              else Contents() == old(Contents()) || Contents() == old(Contents()).(answers := Some(answers))
    {
      saved, left, runAfter := false, budget, run;
      if left > 0 {
        left := left - 1;
        answersFile := Some(answers);
        RunExtends(job, runAfter, State(Contents(), SavingPairs(m, i)));
        runAfter := runAfter + [State(Contents(), SavingPairs(m, i))];
        if left > 0 {
          left := left - 1;
          pairsFile := Some(pairs);
          RunExtends(job, runAfter, State(Contents(), Asking(m, i + 1, 0)));
          runAfter := runAfter + [State(Contents(), Asking(m, i + 1, 0))];
          saved := true;
          return;
        }
      }
      RunExtends(job, runAfter, State(Contents(), Down));
      runAfter := runAfter + [State(Contents(), Down)];
    }
  }

  // The invariant along any run of the program, from any consistent directory.
  lemma {:induction false} RunInv(job: Job, run: seq<State>, n: nat)
    requires IsRun(job, run) && Inv(job, run[0]) && n < |run|
    ensures Inv(job, run[n])
  {
    if n > 0 {
      RunInv(job, run, n - 1);
      assert Next(job, run[n - 1], run[n - 1 + 1]);
      InvNext(job, run[n - 1], run[n]);
    }
  }
}
