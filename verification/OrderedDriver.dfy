/** The ordered concurrent driver (arm64/parallel.go): workers compile functions in any
    order, one goroutine each, while the results are merged strictly in function
    order. Modelled as the steps the merger and the workers take, in any
    interleaving. */
module OrderedDriver {
  import opened Graphs

  datatype Outcome<C, E> = Code(code: C) | Failed(err: E)

  /** A job's life: spawned with the function it captured, holding a slot while it
      compiles and until the slot is given back, then closed. */
  datatype Job<F, C, E> =
    | NotStarted
    | Waiting(fn: Option<F>)
    | Running(fn: Option<F>)
    | Computed(out: Outcome<C, E>)
    | Freed(out: Outcome<C, E>)
    | Closed(out: Outcome<C, E>)

  /** Where the merger is: dispatching before index, waiting for index, or returned. */
  datatype Pc<E> = Dispatch(index: nat) | Wait(index: nat) | Returned(err: Option<E>)

  /** `functions` loses an entry when its merge releases it. */
  datatype State<F, C, E> = State(functions: seq<Option<F>>, jobs: seq<Job<F, C, E>>, slots: nat, started: nat,
                                  pc: Pc<E>, firstError: Option<E>, merged: seq<(nat, C)>)

  datatype Config<!F, C, E> = Config(functions: seq<F>, compile: F -> Outcome<C, E>, workers: nat, release: bool)
  {
    function Lookahead(): nat { 2 * workers }

    function Result(i: nat): Outcome<C, E>
      requires i < |functions|
    {
      compile(functions[i])
    }
  }

  function Init<F, C, E>(c: Config<F, C, E>): State<F, C, E> {
    State(seq(|c.functions|, i requires 0 <= i < |c.functions| => Some(c.functions[i])), seq(|c.functions|, _ => NotStarted),
          0, 0, Dispatch(0), None, [])
  }

  // ----- the steps -----

  predicate CanSpawn<F, C, E>(c: Config<F, C, E>, s: State<F, C, E>) {
    && s.pc.Dispatch? && s.pc.index < |c.functions| && s.firstError.None?
    && s.started < |c.functions| && s.started < s.pc.index + c.Lookahead()
    && s.started < |s.jobs| && s.started < |s.functions|
  }

  /** The merger starts the next job, which captures its function now. */
  ghost predicate Spawn<F, C, E>(c: Config<F, C, E>, s: State<F, C, E>, t: State<F, C, E>) {
    CanSpawn(c, s) && t == s.(jobs := s.jobs[s.started := Waiting(s.functions[s.started])], started := s.started + 1)
  }

  /** Done dispatching: wait for the next result, or stop. */
  ghost predicate Enter<F, C, E>(c: Config<F, C, E>, s: State<F, C, E>, t: State<F, C, E>) {
    && s.pc.Dispatch? && !CanSpawn(c, s)
    && t == s.(pc := if s.pc.index >= |c.functions| || s.pc.index >= s.started then Returned(s.firstError) else Wait(s.pc.index))
  }

  /** The awaited job has closed: merge it, note the first error, or drain it. */
  ghost predicate Receive<F, C, E>(c: Config<F, C, E>, s: State<F, C, E>, t: State<F, C, E>) {
    && s.pc.Wait? && s.pc.index < |s.jobs| && s.pc.index < |s.functions| && s.jobs[s.pc.index].Closed?
    && var i, out := s.pc.index, s.jobs[s.pc.index].out;
       t == if s.firstError.Some? then s.(pc := Dispatch(i + 1))
            else if out.Failed? then s.(pc := Dispatch(i + 1), firstError := Some(out.err))
            else s.(pc := Dispatch(i + 1), merged := s.merged + [(i, out.code)],
                    functions := if c.release then s.functions[i := None] else s.functions)
  }

  ghost predicate Acquire<F, C, E>(c: Config<F, C, E>, s: State<F, C, E>, t: State<F, C, E>, i: nat) {
    && i < |s.jobs| && s.jobs[i].Waiting? && s.slots < c.workers
    && t == s.(jobs := s.jobs[i := Running(s.jobs[i].fn)], slots := s.slots + 1)
  }

  /** Compiling reads the captured function; a released one cannot be read. */
  ghost predicate Compile<F, C, E>(c: Config<F, C, E>, s: State<F, C, E>, t: State<F, C, E>, i: nat) {
    && i < |s.jobs| && s.jobs[i].Running? && s.jobs[i].fn.Some?
    && t == s.(jobs := s.jobs[i := Computed(c.compile(s.jobs[i].fn.value))])
  }

  ghost predicate Free<F, C, E>(s: State<F, C, E>, t: State<F, C, E>, i: nat) {
    && i < |s.jobs| && s.jobs[i].Computed? && s.slots > 0
    && t == s.(jobs := s.jobs[i := Freed(s.jobs[i].out)], slots := s.slots - 1)
  }

  ghost predicate Close<F, C, E>(s: State<F, C, E>, t: State<F, C, E>, i: nat) {
    && i < |s.jobs| && s.jobs[i].Freed?
    && t == s.(jobs := s.jobs[i := Closed(s.jobs[i].out)])
  }

  ghost predicate WorkerStep<F, C, E>(c: Config<F, C, E>, s: State<F, C, E>, t: State<F, C, E>, i: nat) {
    Acquire(c, s, t, i) || Compile(c, s, t, i) || Free(s, t, i) || Close(s, t, i)
  }

  ghost predicate Step<F, C, E>(c: Config<F, C, E>, s: State<F, C, E>, t: State<F, C, E>) {
    Spawn(c, s, t) || Enter(c, s, t) || Receive(c, s, t) || exists i :: WorkerStep(c, s, t, i)
  }

  ghost predicate Run<F, C, E>(c: Config<F, C, E>, r: seq<State<F, C, E>>) {
    && |r| > 0 && r[0] == Init(c)
    && forall i, j :: 0 <= i && j == i + 1 && j < |r| ==> Step(c, r[i], r[j])
  }

  // ----- what a serial compile would do -----

  /** The index of the first failure, or the number of functions. */
  function FirstFailure<F, C, E>(c: Config<F, C, E>, from: nat): (e: nat)
    requires from <= |c.functions|
    ensures from <= e <= |c.functions|
    ensures forall i :: from <= i < e ==> c.Result(i).Code?
    ensures e < |c.functions| ==> c.Result(e).Failed?
    decreases |c.functions| - from
  {
    if from == |c.functions| || c.Result(from).Failed? then from else FirstFailure(c, from + 1)
  }

  /** The merge calls a serial compile makes for the first k functions. */
  function Merges<F, C, E>(c: Config<F, C, E>, k: nat): (s: seq<(nat, C)>)
    requires k <= FirstFailure(c, 0)
    ensures |s| == k && forall i :: 0 <= i < k ==> s[i] == (i, c.Result(i).code)
  {
    seq(k, i requires 0 <= i < k => (i, c.Result(i).code))
  }

  function SerialError<F, C, E>(c: Config<F, C, E>): Option<E> {
    var e := FirstFailure(c, 0);
    if e < |c.functions| then Some(c.Result(e).err) else None
  }

  // ----- the invariant -----

  ghost predicate JobOk<F, C, E>(c: Config<F, C, E>, started: nat, j: Job<F, C, E>, i: nat)
    requires i < |c.functions|
  {
    match j
    case NotStarted => i >= started
    case Waiting(fn) => i < started && fn == Some(c.functions[i])
    case Running(fn) => i < started && fn == Some(c.functions[i])
    case Computed(out) => i < started && out == c.Result(i)
    case Freed(out) => i < started && out == c.Result(i)
    case Closed(out) => i < started && out == c.Result(i)
  }

  predicate Holding<F, C, E>(j: Job<F, C, E>) {
    j.Running? || j.Computed?
  }

  ghost function Holders<F, C, E>(jobs: seq<Job<F, C, E>>): (s: set<nat>)
    ensures forall i: nat :: i in s <==> i < |jobs| && Holding(jobs[i])
  {
    set i | i in Upto(|jobs|) && Holding(jobs[i])
  }

  ghost predicate JobsOk<F, C, E>(c: Config<F, C, E>, s: State<F, C, E>) {
    && |s.jobs| == |c.functions| && s.started <= |c.functions|
    && (forall i :: 0 <= i < |s.jobs| ==> JobOk(c, s.started, s.jobs[i], i))
    && s.slots == |Holders(s.jobs)| <= c.workers
  }

  /** How many results the merger has taken. */
  function Taken<F, C, E>(s: State<F, C, E>): nat {
    match s.pc
    case Dispatch(i) => i
    case Wait(i) => i
    case Returned(_) => s.started
  }

  function Least(a: nat, b: nat): nat { if a < b then a else b }

  /** The merger has taken the results below k in order; everything it took is closed;
      a function is released only after its merge; look-ahead is bounded. */
  ghost predicate MergerOk<F, C, E>(c: Config<F, C, E>, s: State<F, C, E>, k: nat) {
    var e := FirstFailure(c, 0);
    && k <= s.started <= |c.functions| && |s.functions| == |c.functions| && |s.jobs| == |c.functions|
    && (forall i :: 0 <= i < k ==> s.jobs[i].Closed?)
    && s.merged == Merges(c, Least(k, e))
    && s.firstError == (if e < k then SerialError(c) else None)
    && (forall i :: k <= i < |c.functions| ==> s.functions[i] == Some(c.functions[i]))
  }

  ghost predicate PcOk<F, C, E>(c: Config<F, C, E>, s: State<F, C, E>) {
    match s.pc
    case Dispatch(i) => s.started <= i + c.Lookahead()
    case Wait(i) => i < s.started <= i + c.Lookahead()
    case Returned(err) => err == s.firstError == SerialError(c) && s.merged == Merges(c, FirstFailure(c, 0))
  }

  ghost predicate Inv<F, C, E>(c: Config<F, C, E>, s: State<F, C, E>) {
    JobsOk(c, s) && MergerOk(c, s, Taken(s)) && PcOk(c, s)
  }

  lemma InitInv<F, C, E>(c: Config<F, C, E>)
    ensures Inv(c, Init(c))
  {
    assert Holders(Init(c).jobs) == {};
  }

  lemma SameHolders<F, C, E>(jobs: seq<Job<F, C, E>>, i: nat, j: Job<F, C, E>)
    requires i < |jobs|
    ensures Holders(jobs[i := j]) == if Holding(j) then Holders(jobs) + {i} else Holders(jobs) - {i}
  {
  }

  function JobRank<F, C, E>(j: Job<F, C, E>): nat {
    match j
    case NotStarted => 5
    case Waiting(_) => 4
    case Running(_) => 3
    case Computed(_) => 2
    case Freed(_) => 1
    case Closed(_) => 0
  }

  /** A worker step advances one job and nothing else but the slot count. */
  lemma WorkerEffect<F, C, E>(c: Config<F, C, E>, s: State<F, C, E>, t: State<F, C, E>, i: nat)
    requires JobsOk(c, s) && WorkerStep(c, s, t, i)
    ensures i < |s.jobs| == |t.jobs| && t == s.(jobs := s.jobs[i := t.jobs[i]], slots := t.slots)
    ensures JobOk(c, s.started, t.jobs[i], i) && JobRank(t.jobs[i]) < JobRank(s.jobs[i])
    ensures t.slots == s.slots + (if Holding(t.jobs[i]) then 1 else 0) - (if Holding(s.jobs[i]) then 1 else 0)
    ensures Holding(t.jobs[i]) && !Holding(s.jobs[i]) ==> s.slots < c.workers
  {
    hide Holders;
    assert JobOk(c, s.started, s.jobs[i], i);
  }

  lemma WorkerInv<F, C, E>(c: Config<F, C, E>, s: State<F, C, E>, t: State<F, C, E>, i: nat)
    requires Inv(c, s) && WorkerStep(c, s, t, i)
    ensures Inv(c, t)
  {
    hide MergerOk, PcOk, WorkerStep;
    WorkerEffect(c, s, t, i);
    SameHolders(s.jobs, i, t.jobs[i]);
    assert Taken(t) == Taken(s);
    forall x | 0 <= x < |t.jobs|
      ensures JobOk(c, t.started, t.jobs[x], x)
    {
      assert x != i ==> JobOk(c, s.started, s.jobs[x], x);
    }
    WorkerMerger(c, s, t, i);
  }

  lemma WorkerMerger<F, C, E>(c: Config<F, C, E>, s: State<F, C, E>, t: State<F, C, E>, i: nat)
    requires MergerOk(c, s, Taken(s)) && PcOk(c, s) && WorkerStep(c, s, t, i) && Taken(t) == Taken(s)
    ensures MergerOk(c, t, Taken(t)) && PcOk(c, t)
  {
  }

  lemma SpawnInv<F, C, E>(c: Config<F, C, E>, s: State<F, C, E>, t: State<F, C, E>)
    requires Inv(c, s) && Spawn(c, s, t)
    ensures Inv(c, t)
  {
    hide FirstFailure, Merges, SerialError;
    var i := s.started;
    assert s.functions[i] == Some(c.functions[i]);
    SpawnJobs(c, s, t);
  }

  lemma SpawnJobs<F, C, E>(c: Config<F, C, E>, s: State<F, C, E>, t: State<F, C, E>)
    requires JobsOk(c, s) && Spawn(c, s, t) && s.functions[s.started] == Some(c.functions[s.started])
    ensures JobsOk(c, t)
  {
    var i := s.started;
    SameHolders(s.jobs, i, t.jobs[i]);
    assert JobOk(c, s.started, s.jobs[i], i);
    assert Holders(t.jobs) == Holders(s.jobs);
    forall x | 0 <= x < |t.jobs|
      ensures JobOk(c, t.started, t.jobs[x], x)
    {
      assert JobOk(c, s.started, s.jobs[x], x);
    }
  }

  /** Stopping: with no error everything has been taken; with one, everything started. */
  lemma EnterInv<F, C, E>(c: Config<F, C, E>, s: State<F, C, E>, t: State<F, C, E>)
    requires c.workers > 0 && Inv(c, s) && Enter(c, s, t)
    ensures Inv(c, t)
  {
    assert s.pc.index == Taken(s);
  }

  lemma ReceiveInv<F, C, E>(c: Config<F, C, E>, s: State<F, C, E>, t: State<F, C, E>)
    requires Inv(c, s) && Receive(c, s, t)
    ensures Inv(c, t)
  {
    hide FirstFailure, Holders, Merges;
    var i := s.pc.index;
    assert JobOk(c, s.started, s.jobs[i], i);
    assert JobsOk(c, t) && Taken(t) == i + 1;
    assert PcOk(c, t);
    ReceiveMerger(c, s, t, i);
  }

  lemma ReceiveMerger<F, C, E>(c: Config<F, C, E>, s: State<F, C, E>, t: State<F, C, E>, i: nat)
    requires MergerOk(c, s, i) && i < s.started && Receive(c, s, t) && s.pc == Wait(i) && s.jobs[i] == Closed(c.Result(i))
    ensures MergerOk(c, t, i + 1)
  {
    var e := FirstFailure(c, 0);
    assert i < e ==> c.Result(i).Code?;
    if i < e {
      MergesNext(c, i);
    }
  }

  lemma MergesNext<F, C, E>(c: Config<F, C, E>, i: nat)
    requires i < FirstFailure(c, 0)
    ensures Merges(c, i + 1) == Merges(c, i) + [(i, c.Result(i).code)]
  {
  }

  lemma StepInv<F, C, E>(c: Config<F, C, E>, s: State<F, C, E>, t: State<F, C, E>)
    requires c.workers > 0 && Inv(c, s) && Step(c, s, t)
    ensures Inv(c, t)
  {
    hide Inv, Spawn, Enter, Receive, WorkerStep;
    if Spawn(c, s, t) {
      SpawnInv(c, s, t);
    } else if Enter(c, s, t) {
      EnterInv(c, s, t);
    } else if Receive(c, s, t) {
      ReceiveInv(c, s, t);
    } else {
      var i: nat :| WorkerStep(c, s, t, i);
      WorkerInv(c, s, t, i);
    }
  }

  lemma {:induction false} RunInv<F, C, E>(c: Config<F, C, E>, r: seq<State<F, C, E>>, i: nat)
    requires c.workers > 0 && Run(c, r) && i < |r|
    ensures Inv(c, r[i])
  {
    hide Inv;
    if i == 0 {
      InitInv(c);
    } else {
      RunInv(c, r, i - 1);
      var h := i - 1;
      assert Step(c, r[h], r[i]);
      StepInv(c, r[h], r[i]);
    }
  }

  // ----- what every run does -----

  /** Whatever the interleaving, a finished run has made exactly the merge calls of a
      serial compile, returns its error, and has drained every job it started. */
  lemma Deterministic<F, C, E>(c: Config<F, C, E>, r: seq<State<F, C, E>>, s: State<F, C, E>)
    requires c.workers > 0 && Run(c, r) && s == r[|r| - 1] && s.pc.Returned?
    ensures s.merged == Merges(c, FirstFailure(c, 0)) && s.pc.err == SerialError(c)
    ensures forall i :: 0 <= i < |s.jobs| ==> s.jobs[i].NotStarted? || s.jobs[i].Closed?
  {
    RunInv(c, r, |r| - 1);
    forall i | 0 <= i < |s.jobs|
      ensures s.jobs[i].NotStarted? || s.jobs[i].Closed?
    {
      assert JobOk(c, s.started, s.jobs[i], i);
    }
  }

  /** Job i has captured its function, and the driver's list still holds it. */
  ghost predicate Unreleased<F, C, E>(c: Config<F, C, E>, s: State<F, C, E>, i: nat) {
    && i < |s.jobs| && (s.jobs[i].Waiting? || s.jobs[i].Running?) && i < |c.functions| && i < |s.functions|
    && s.jobs[i].fn == Some(c.functions[i]) && s.functions[i] == Some(c.functions[i])
  }

  /** At every moment: the merges so far are a prefix of the serial ones, the job being
      waited for has been started, a job that has not compiled yet has its own function,
      not yet released, and at most the look-ahead of unmerged results is outstanding. */
  lemma AlwaysSafe<F, C, E>(c: Config<F, C, E>, r: seq<State<F, C, E>>, k: nat)
    requires c.workers > 0 && Run(c, r) && k < |r|
    ensures r[k].merged <= Merges(c, FirstFailure(c, 0))
    ensures r[k].pc.Wait? ==> r[k].pc.index < r[k].started <= |r[k].jobs| && !r[k].jobs[r[k].pc.index].NotStarted?
    ensures forall i :: 0 <= i < |r[k].jobs| && (r[k].jobs[i].Waiting? || r[k].jobs[i].Running?) ==> Unreleased(c, r[k], i)
    ensures !r[k].pc.Returned? ==> r[k].started <= r[k].pc.index + 2 * c.workers
    ensures |set i | 0 <= i < |r[k].jobs| && (r[k].jobs[i].Running? || r[k].jobs[i].Computed?)| <= c.workers
  {
    RunInv(c, r, k);
    var s := r[k];
    assert (set i | 0 <= i < |s.jobs| && (s.jobs[i].Running? || s.jobs[i].Computed?)) == Holders(s.jobs);
    assert s.merged == Merges(c, FirstFailure(c, 0))[..|s.merged|];
    forall i | 0 <= i < |s.jobs|
      ensures (s.jobs[i].Waiting? || s.jobs[i].Running?) ==> Unreleased(c, s, i)
      ensures i < s.started ==> !s.jobs[i].NotStarted?
    {
      assert JobOk(c, s.started, s.jobs[i], i);
    }
  }

  // ----- every run ends -----

  /** Until it returns, some step is possible. */
  lemma NoDeadlock<F, C, E>(c: Config<F, C, E>, s: State<F, C, E>)
    requires c.workers > 0 && Inv(c, s) && !s.pc.Returned?
    ensures exists t :: Step(c, s, t)
  {
    if s.pc.Dispatch? {
      if CanSpawn(c, s) {
        assert Step(c, s, s.(jobs := s.jobs[s.started := Waiting(s.functions[s.started])], started := s.started + 1));
      } else {
        assert Step(c, s, s.(pc := if s.pc.index >= |c.functions| || s.pc.index >= s.started then Returned(s.firstError) else Wait(s.pc.index)));
      }
    } else {
      var i := s.pc.index;
      assert JobOk(c, s.started, s.jobs[i], i);
      if s.jobs[i].Closed? {
        ReceiveEnabled(c, s);
      } else if s.jobs[i].Waiting? && s.slots == c.workers {
        assert Holders(s.jobs) != {};
        var h :| h in Holders(s.jobs);
        WorkerEnabled(c, s, h);
      } else {
        WorkerEnabled(c, s, i);
      }
    }
  }

  lemma ReceiveEnabled<F, C, E>(c: Config<F, C, E>, s: State<F, C, E>)
    requires Inv(c, s) && s.pc.Wait? && s.pc.index < |s.jobs| && s.jobs[s.pc.index].Closed?
    ensures exists t :: Step(c, s, t)
  {
    var i, out := s.pc.index, s.jobs[s.pc.index].out;
    var t := if s.firstError.Some? then s.(pc := Dispatch(i + 1))
             else if out.Failed? then s.(pc := Dispatch(i + 1), firstError := Some(out.err))
             else s.(pc := Dispatch(i + 1), merged := s.merged + [(i, out.code)],
                     functions := if c.release then s.functions[i := None] else s.functions);
    assert Receive(c, s, t);
    assert Step(c, s, t);
  }

  lemma WorkerEnabled<F, C, E>(c: Config<F, C, E>, s: State<F, C, E>, i: nat)
    requires Inv(c, s) && i < |s.jobs| && !s.jobs[i].NotStarted? && !s.jobs[i].Closed? && (s.jobs[i].Waiting? ==> s.slots < c.workers)
    ensures exists t :: Step(c, s, t)
  {
    var j := s.jobs[i];
    assert JobOk(c, s.started, j, i);
    if j.Computed? {
      assert i in Holders(s.jobs);
    }
    var t := match j
      case Waiting(fn) => s.(jobs := s.jobs[i := Running(fn)], slots := s.slots + 1)
      case Running(fn) => s.(jobs := s.jobs[i := Computed(c.compile(fn.value))])
      case Computed(out) => s.(jobs := s.jobs[i := Freed(out)], slots := s.slots - 1)
      case Freed(out) => s.(jobs := s.jobs[i := Closed(out)]);
    assert WorkerStep(c, s, t, i);
    assert Step(c, s, t);
  }

  function JobsRank<F, C, E>(jobs: seq<Job<F, C, E>>): nat {
    if jobs == [] then 0 else JobsRank(jobs[..|jobs| - 1]) + JobRank(jobs[|jobs| - 1])
  }

  lemma {:induction false} RankUpdate<F, C, E>(jobs: seq<Job<F, C, E>>, i: nat, j: Job<F, C, E>)
    requires i < |jobs|
    ensures JobsRank(jobs[i := j]) == JobsRank(jobs) - JobRank(jobs[i]) + JobRank(j)
  {
    var last := |jobs| - 1;
    if i == last {
      assert jobs[i := j][..last] == jobs[..last];
    } else {
      assert jobs[i := j][..last] == jobs[..last][i := j];
      RankUpdate(jobs[..last], i, j);
    }
  }

  function Rank<F, C, E>(c: Config<F, C, E>, s: State<F, C, E>): int {
    JobsRank(s.jobs) + match s.pc
                       case Dispatch(i) => 2 * (|c.functions| as int - i) + 2
                       case Wait(i) => 2 * (|c.functions| as int - i) + 1
                       case Returned(_) => 0
  }

  lemma RankPositive<F, C, E>(c: Config<F, C, E>, s: State<F, C, E>)
    requires Inv(c, s)
    ensures Rank(c, s) >= 0
  {
  }

  /** Every step brings the end nearer: no run is longer than the initial rank. */
  lemma StepDescends<F, C, E>(c: Config<F, C, E>, s: State<F, C, E>, t: State<F, C, E>)
    requires c.workers > 0 && Inv(c, s) && Step(c, s, t)
    ensures Rank(c, t) < Rank(c, s)
  {
    hide Inv, JobsOk, WorkerStep;
    InvSizes(c, s);
    if Spawn(c, s, t) {
      SpawnDescends(c, s, t);
    } else if !Enter(c, s, t) && !Receive(c, s, t) {
      var i: nat :| WorkerStep(c, s, t, i);
      WorkerEffect(c, s, t, i);
      RankUpdate(s.jobs, i, t.jobs[i]);
    }
  }

  lemma SpawnDescends<F, C, E>(c: Config<F, C, E>, s: State<F, C, E>, t: State<F, C, E>)
    requires JobsOk(c, s) && Spawn(c, s, t)
    ensures Rank(c, t) < Rank(c, s)
  {
    RankUpdate(s.jobs, s.started, t.jobs[s.started]);
    assert JobOk(c, s.started, s.jobs[s.started], s.started);
  }

  lemma InvSizes<F, C, E>(c: Config<F, C, E>, s: State<F, C, E>)
    requires Inv(c, s)
    ensures JobsOk(c, s) && Taken(s) <= |c.functions|
  {
  }

  lemma {:induction false} RunIsBounded<F, C, E>(c: Config<F, C, E>, r: seq<State<F, C, E>>, i: nat)
    requires c.workers > 0 && Run(c, r) && i < |r|
    ensures i <= Rank(c, Init(c)) - Rank(c, r[i])
    ensures i <= Rank(c, Init(c))
  {
    hide Inv, Step, Rank;
    RunInv(c, r, i);
    RankPositive(c, r[i]);
    if i > 0 {
      var h := i - 1;
      RunIsBounded(c, r, h);
      RunInv(c, r, h);
      assert Step(c, r[h], r[i]);
      StepDescends(c, r[h], r[i]);
    }
  }
}
