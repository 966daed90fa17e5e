/**
 The project state file and the protocol that guards it.  `update` takes an exclusive lock, reads the
 file, applies an updater that may raise, writes a temporary file and renames it over the original;
 `save` does the same with a given state; `load` reads without any lock.  Any number of processes
 interleave these steps, and a process may crash between any two of them.  A read that fails counts as
 an empty file, under the lock as well as without it: an update that runs on a failed read starts from
 the empty state and writes its result over whatever was stored.

 The protocol is a transition function over labelled steps, so that a run is a list of labels and the
 theorems quantify over every run.
 */
module StateStore {
  import opened Wrappers

  type Pid = nat

  /** The state file: missing or no JSON, JSON that is no object, an object the model rejects, or a
      stored state. */
  datatype Doc<+S> = Absent | NotAnObject | Foreign | Stored(state: S)

  /** The temporary file: a write that has not finished is torn. */
  datatype Temp<+S> = NoTemp | Torn | Complete(state: S)

  /** An updater returns a new state, or raises (`None`). */
  datatype Op<!S> = Update(apply: S -> Option<S>) | Save(state: S)

  datatype Phase<!S> =
    | Idle
    | Waiting(op: Op<S>)
    | Holding(op: Op<S>)
    | HasRead(op: Op<S>, current: S, blind: bool)  // blind: on a failed read
    | Ready(op: Op<S>, next: S, blind: bool)
    | Writing(op: Op<S>, next: S, blind: bool)
    | Written(op: Op<S>, next: S, blind: bool)
    | Committed(op: Op<S>)
    | Raised(op: Op<S>)
    | Dead(limbo: seq<Op<S>>)  // crashed, holding an operation that had committed but not returned

  datatype Machine<!S> = Machine(doc: Doc<S>, temp: Temp<S>, holder: Option<Pid>, procs: map<Pid, Phase<S>>)

  datatype Label<!S> =
    | Begin(p: Pid, op: Op<S>)
    | Acquire(p: Pid)
    | Read(p: Pid)
    | ReadFails(p: Pid)
    | Compute(p: Pid)
    | OpenTemp(p: Pid)
    | CloseTemp(p: Pid)
    | WriteFails(p: Pid)
    | Replace(p: Pid)
    | Exit(p: Pid)
    | Crash(p: Pid)
    | Load(p: Pid)
    | LoadFails(p: Pid)

  /** A commit: who renamed which operation into place, and whether its read had failed. */
  datatype Commit<!S> = Commit(p: Pid, op: Op<S>, blind: bool)

  function PhaseOf<S>(m: Machine<S>, p: Pid): Phase<S> {
    if p in m.procs then m.procs[p] else Idle
  }

  /** What `load` returns; `None` when the stored object does not validate and `load` raises. */
  function Value<S>(initial: S, doc: Doc<S>): Option<S> {
    match doc
    case Absent => Some(initial)
    case NotAnObject => Some(initial)
    case Foreign => None
    case Stored(s) => Some(s)
  }

  predicate InLock<S>(ph: Phase<S>) {
    !ph.Idle? && !ph.Waiting? && !ph.Dead?
  }

  function Move<S>(m: Machine<S>, p: Pid, ph: Phase<S>): Machine<S> {
    m.(procs := m.procs[p := ph])
  }

  /** One step; `None` when the step is not enabled. */
  function Next<S>(initial: S, m: Machine<S>, step: Label<S>): Option<Machine<S>> {
    var ph := PhaseOf(m, step.p);
    match step
    case Begin(p, op) =>
      if ph.Idle? then Some(Move(m, p, Waiting(op))) else None
    case Acquire(p) =>
      if ph.Waiting? && m.holder.None? then Some(Move(m, p, Holding(ph.op)).(holder := Some(p))) else None
    case Read(p) =>
      if !ph.Holding? then None
      else if ph.op.Save? then Some(Move(m, p, Ready(ph.op, ph.op.state, false)))
      else (match Value(initial, m.doc)
            case None => Some(Move(m, p, Raised(ph.op)))
            case Some(s) => Some(Move(m, p, HasRead(ph.op, s, false))))
    case ReadFails(p) =>
      if ph.Holding? && ph.op.Update? then Some(Move(m, p, HasRead(ph.op, initial, true))) else None
    case Compute(p) =>
      if !(ph.HasRead? && ph.op.Update?) then None
      else (match ph.op.apply(ph.current)
            case None => Some(Move(m, p, Raised(ph.op)))
            case Some(s) => Some(Move(m, p, Ready(ph.op, s, ph.blind))))
    case OpenTemp(p) =>
      if ph.Ready? then Some(Move(m, p, Writing(ph.op, ph.next, ph.blind)).(temp := Torn)) else None
    case CloseTemp(p) =>
      if ph.Writing? then Some(Move(m, p, Written(ph.op, ph.next, ph.blind)).(temp := Complete(ph.next))) else None
    case WriteFails(p) =>
      if ph.Ready? || ph.Writing? || ph.Written? then Some(Move(m, p, Raised(ph.op))) else None
    case Replace(p) =>
      if !ph.Written? then None
      else (match m.temp
            case Complete(s) => Some(Move(m, p, Committed(ph.op)).(doc := Stored(s), temp := NoTemp))
            case _ => None)
    case Exit(p) =>
      if ph.Committed? || ph.Raised? then Some(Move(m, p, Idle).(holder := None)) else None
    case Crash(p) =>
      if ph.Dead? then None
      else Some(Move(m, p, Dead(if ph.Committed? then [ph.op] else []))
                .(holder := if InLock(ph) then None else m.holder))
    case Load(p) =>
      if ph.Idle? then Some(m) else None
    case LoadFails(p) =>
      if ph.Idle? then Some(m) else None
  }

  function Run<S>(initial: S, m: Machine<S>, labels: seq<Label<S>>): Option<Machine<S>> {
    if labels == [] then Some(m)
    else
      match Run(initial, m, labels[..|labels| - 1])
      case None => None
      case Some(before) => Next(initial, before, labels[|labels| - 1])
  }

  /** The operations renamed into place during a run, in the order of their renames. */
  function Commits<S>(initial: S, m: Machine<S>, labels: seq<Label<S>>): seq<Commit<S>>
    requires Run(initial, m, labels).Some?
  {
    if labels == [] then []
    else
      var before := Run(initial, m, labels[..|labels| - 1]).value;
      var last := labels[|labels| - 1];
      Commits(initial, m, labels[..|labels| - 1]) +
      if last.Replace? && PhaseOf(before, last.p).Written? then [CommitOf(before, last.p)] else []
  }

  function CommitOf<S>(before: Machine<S>, p: Pid): Commit<S>
    requires PhaseOf(before, p).Written?
  {
    Commit(p, PhaseOf(before, p).op, PhaseOf(before, p).blind)
  }

  function ApplyOp<S>(op: Op<S>, v: Option<S>): Option<S> {
    match op
    case Save(s) => Some(s)
    case Update(f) => if v.None? then None else f(v.value)
  }

  /** What a committed operation was applied to, given what was stored before it. */
  function Seen<S>(initial: S, v: Option<S>, c: Commit<S>): Option<S> {
    if c.blind then Some(initial) else v
  }

  /** The sequential meaning: apply the operations one after the other, a blind one to the empty state. */
  function Fold<S>(initial: S, v: Option<S>, commits: seq<Commit<S>>): Option<S> {
    if commits == [] then v
    else
      var last := commits[|commits| - 1];
      ApplyOp(last.op, Seen(initial, Fold(initial, v, commits[..|commits| - 1]), last))
  }

  /** What the caller of `update` means by it: every operation applied to what the others left. */
  function PlainFold<S>(v: Option<S>, commits: seq<Commit<S>>): Option<S> {
    if commits == [] then v else ApplyOp(commits[|commits| - 1].op, PlainFold(v, commits[..|commits| - 1]))
  }

  ghost predicate Quiet<S>(m: Machine<S>) {
    m.holder.None? && m.procs == map[]
  }

  // ---------------------------------------------------------------- the invariant

  ghost predicate Computed<S>(initial: S, m: Machine<S>, op: Op<S>, next: S, blind: bool) {
    && ApplyOp(op, if blind then Some(initial) else Value(initial, m.doc)) == Some(next)
    && (blind ==> op.Update?)
  }

  ghost predicate PhaseInv<S>(initial: S, m: Machine<S>, ph: Phase<S>) {
    match ph
    case HasRead(op, current, blind) =>
      op.Update? && (if blind then current == initial else Value(initial, m.doc) == Some(current))
    case Ready(op, next, blind) => Computed(initial, m, op, next, blind)
    case Writing(op, next, blind) => Computed(initial, m, op, next, blind)
    case Written(op, next, blind) => Computed(initial, m, op, next, blind) && m.temp == Complete(next)
    case _ => true
  }

  /** Exactly the lock's holder is inside, and what it has read or computed is still current. */
  ghost predicate Inv<S>(initial: S, m: Machine<S>) {
    forall p: Pid :: (InLock(PhaseOf(m, p)) <==> m.holder == Some(p)) && PhaseInv(initial, m, PhaseOf(m, p))
  }

  lemma {:induction false} StepKeepsInv<S>(initial: S, m: Machine<S>, step: Label<S>)
    requires Inv(initial, m) && Next(initial, m, step).Some?
    ensures Inv(initial, Next(initial, m, step).value)
  {
    var m' := Next(initial, m, step).value;
    forall p: Pid
      ensures (InLock(PhaseOf(m', p)) <==> m'.holder == Some(p)) && PhaseInv(initial, m', PhaseOf(m', p))
    {
      assert InLock(PhaseOf(m, p)) <==> m.holder == Some(p);
      assert InLock(PhaseOf(m, step.p)) <==> m.holder == Some(step.p);
      assert PhaseInv(initial, m, PhaseOf(m, p));
      if p != step.p {
        assert PhaseOf(m', p) == PhaseOf(m, p);
      }
    }
  }

  /** A commit applies its operation to the value stored just before; no other step changes it. */
  lemma {:induction false} StepAppliesCommit<S>(initial: S, m: Machine<S>, step: Label<S>)
    requires Inv(initial, m) && Next(initial, m, step).Some?
    ensures
      var m' := Next(initial, m, step).value;
      Value(initial, m'.doc) ==
        if step.Replace? && PhaseOf(m, step.p).Written?
        then ApplyOp(PhaseOf(m, step.p).op, Seen(initial, Value(initial, m.doc), CommitOf(m, step.p)))
        else Value(initial, m.doc)
  {
    assert PhaseInv(initial, m, PhaseOf(m, step.p));
  }

  // ---------------------------------------------------------------- every run

  lemma {:induction false} RunKeepsInv<S>(initial: S, m: Machine<S>, labels: seq<Label<S>>)
    requires Quiet(m) && Run(initial, m, labels).Some?
    ensures Inv(initial, Run(initial, m, labels).value)
  {
    if labels != [] {
      RunKeepsInv(initial, m, labels[..|labels| - 1]);
      StepKeepsInv(initial, Run(initial, m, labels[..|labels| - 1]).value, labels[|labels| - 1]);
    }
  }

  /** In every interleaving, crashes, raising updaters and failed reads and writes included, the stored
      state is the left fold of the committed operations in the order of their renames, each applied to
      what the ones before it left, or, if its read had failed, to the empty state. */
  lemma {:induction false} StoredIsFoldOfCommits<S>(initial: S, m: Machine<S>, labels: seq<Label<S>>)
    requires Quiet(m) && Run(initial, m, labels).Some?
    ensures Value(initial, Run(initial, m, labels).value.doc)
         == Fold(initial, Value(initial, m.doc), Commits(initial, m, labels))
  {
    if labels != [] {
      var prefix, last := labels[..|labels| - 1], labels[|labels| - 1];
      var before := Run(initial, m, prefix).value;
      StoredIsFoldOfCommits(initial, m, prefix);
      RunKeepsInv(initial, m, prefix);
      StepAppliesCommit(initial, before, last);
      var done := Commits(initial, m, prefix);
      if last.Replace? {
        assert (done + [CommitOf(before, last.p)])[..|done|] == done;
      } else {
        assert Commits(initial, m, labels) == done;
      }
    }
  }

  /** A failed read makes the stored state forget everything before it. */
  lemma {:induction false} FailedReadForgets<S>(initial: S, v: Option<S>, a: seq<Commit<S>>, c: Commit<S>, b: seq<Commit<S>>)
    requires c.blind
    ensures Fold(initial, v, a + [c] + b) == Fold(initial, Some(initial), [c] + b)
  {
    var all, short := a + [c] + b, [c] + b;
    if b == [] {
      assert all[..|all| - 1] == a && all[|all| - 1] == c;
      assert short[..0] == [] && short[0] == c;
    } else {
      var front := b[..|b| - 1];
      FailedReadForgets(initial, v, a, c, front);
      assert all[..|all| - 1] == a + [c] + front && short[..|short| - 1] == [c] + front;
    }
  }

  /** A commit whose failed read made no difference. */
  ghost predicate Harmless<S>(initial: S, v: Option<S>, commits: seq<Commit<S>>, i: nat)
    requires i < |commits|
  {
    commits[i].blind ==>
      ApplyOp(commits[i].op, Some(initial)) == ApplyOp(commits[i].op, PlainFold(v, commits[..i]))
  }

  /** Exactly when no update is lost or applied to a stale read at any point: when every committed
      update whose read failed would have computed the same from what was stored.  In particular
      whenever no read of a committed update failed. */
  lemma {:induction false} NothingLostIff<S>(initial: S, v: Option<S>, commits: seq<Commit<S>>)
    ensures (forall i :: 0 <= i <= |commits| ==> Fold(initial, v, commits[..i]) == PlainFold(v, commits[..i])) <==>
            (forall i: nat :: i < |commits| ==> Harmless(initial, v, commits, i))
    ensures (forall i :: 0 <= i < |commits| ==> !commits[i].blind) ==> Fold(initial, v, commits) == PlainFold(v, commits)
  {
    if forall i: nat :: i < |commits| ==> Harmless(initial, v, commits, i) {
      forall i | 0 <= i <= |commits|
        ensures Fold(initial, v, commits[..i]) == PlainFold(v, commits[..i])
      {
        HarmlessUpTo(initial, v, commits, i);
      }
      assert commits[..|commits|] == commits;
    }
    if forall i :: 0 <= i <= |commits| ==> Fold(initial, v, commits[..i]) == PlainFold(v, commits[..i]) {
      forall i: nat | i < |commits|
        ensures Harmless(initial, v, commits, i)
      {
        assert commits[..i + 1][..i] == commits[..i];
        assert Fold(initial, v, commits[..i + 1]) == PlainFold(v, commits[..i + 1]);
      }
    }
  }

  lemma {:induction false} HarmlessUpTo<S>(initial: S, v: Option<S>, commits: seq<Commit<S>>, n: nat)
    requires n <= |commits| && forall i: nat :: i < |commits| ==> Harmless(initial, v, commits, i)
    ensures Fold(initial, v, commits[..n]) == PlainFold(v, commits[..n])
  {
    if n > 0 {
      HarmlessUpTo(initial, v, commits, n - 1);
      assert commits[..n][..n - 1] == commits[..n - 1];
      assert Harmless(initial, v, commits, n - 1);
    }
  }

  /** The commits could all have been made on good reads: none of them would have raised. */
  ghost predicate Committable<S>(v: Option<S>, commits: seq<Commit<S>>) {
    forall k :: 0 <= k <= |commits| ==> PlainFold(v, commits[..k]).Some?
  }

  ghost predicate BlindOnlyOn<S>(commits: seq<Commit<S>>, f: S -> Option<S>) {
    forall i :: 0 <= i < |commits| && commits[i].blind ==> commits[i].op == Update(f)
  }

  ghost predicate NothingLost<S>(initial: S, v: Option<S>, commits: seq<Commit<S>>) {
    forall i :: 0 <= i <= |commits| ==> Fold(initial, v, commits[..i]) == PlainFold(v, commits[..i])
  }

  /** For which updaters a failed read does no harm whatever is stored and whatever else is committed: those
      that, wherever they do not raise, answer as they answer the empty state. */
  lemma {:induction false} BlindReadsHarmlessIff<S(!new)>(initial: S, f: S -> Option<S>)
    ensures (forall v: Option<S>, commits: seq<Commit<S>> :: Committable(v, commits) && BlindOnlyOn(commits, f) ==> NothingLost(initial, v, commits)) <==>
            (forall s: S :: f(s).Some? ==> f(s) == f(initial))
  {
    if forall s: S :: f(s).Some? ==> f(s) == f(initial) {
      forall v: Option<S>, commits: seq<Commit<S>> | Committable(v, commits) && BlindOnlyOn(commits, f)
        ensures NothingLost(initial, v, commits)
      {
        forall i: nat | i < |commits| ensures Harmless(initial, v, commits, i) {
          assert commits[..i + 1][..i] == commits[..i];
          assert PlainFold(v, commits[..i]).Some? && PlainFold(v, commits[..i + 1]).Some?;
        }
        NothingLostIff(initial, v, commits);
      }
    }
    if forall v: Option<S>, commits: seq<Commit<S>> :: Committable(v, commits) && BlindOnlyOn(commits, f) ==> NothingLost(initial, v, commits) {
      forall s: S | f(s).Some? ensures f(s) == f(initial) {
        OneBlindCommit(initial, f, s);
      }
    }
  }

  lemma {:induction false} OneBlindCommit<S(!new)>(initial: S, f: S -> Option<S>, s: S)
    requires f(s).Some?
    ensures
      var commits: seq<Commit<S>> := [Commit(0, Update(f), true)];
      Committable(Some(s), commits) && BlindOnlyOn(commits, f) && (NothingLost(initial, Some(s), commits) ==> f(s) == f(initial))
  {
    var commits: seq<Commit<S>> := [Commit(0, Update(f), true)];
    assert commits[..1] == commits && commits[..0] == [] && commits[..|commits| - 1] == [];
    assert PlainFold(Some(s), commits) == f(s);
    assert Fold(initial, Some(s), commits) == ApplyOp(commits[0].op, Seen(initial, Fold(initial, Some(s), []), commits[0]));
    assert Fold(initial, Some(s), commits[..1]) == f(initial) && PlainFold(Some(s), commits[..1]) == f(s);
  }

  lemma {:induction false} PrefixRuns<S>(initial: S, m: Machine<S>, labels: seq<Label<S>>, i: nat)
    requires i <= |labels| && Run(initial, m, labels).Some?
    ensures Run(initial, m, labels[..i]).Some?
    ensures Commits(initial, m, labels[..i]) <= Commits(initial, m, labels)
  {
    if i < |labels| {
      PrefixRuns(initial, m, labels[..|labels| - 1], i);
      assert labels[..|labels| - 1][..i] == labels[..i];
    } else {
      assert labels[..i] == labels;
    }
  }

  /** The value an unlocked `load` returns when it is the `i`-th step of a run and can read the file; one
      that cannot returns the empty state. */
  ghost function LoadAt<S>(initial: S, m: Machine<S>, labels: seq<Label<S>>, i: nat): Option<S>
    requires i <= |labels| && Run(initial, m, labels[..i]).Some?
  {
    Value(initial, Run(initial, m, labels[..i]).value.doc)
  }

  /** Every unlocked `load` that can read the file returns the fold of a prefix of the run's commits, never a torn or
      uncommitted state, and a later load returns a longer prefix. */
  lemma {:induction false} LoadsSeeCommittedPrefixes<S>(initial: S, m: Machine<S>, labels: seq<Label<S>>, i: nat, j: nat)
    requires Quiet(m) && i <= j <= |labels| && Run(initial, m, labels).Some?
    ensures Run(initial, m, labels[..i]).Some? && Run(initial, m, labels[..j]).Some?
    ensures Commits(initial, m, labels[..i]) <= Commits(initial, m, labels[..j]) <= Commits(initial, m, labels)
    ensures LoadAt(initial, m, labels, i) == Fold(initial, Value(initial, m.doc), Commits(initial, m, labels[..i]))
    ensures LoadAt(initial, m, labels, j) == Fold(initial, Value(initial, m.doc), Commits(initial, m, labels[..j]))
  {
    PrefixRuns(initial, m, labels, j);
    PrefixRuns(initial, m, labels[..j], i);
    assert labels[..j][..i] == labels[..i];
    StoredIsFoldOfCommits(initial, m, labels[..i]);
    StoredIsFoldOfCommits(initial, m, labels[..j]);
  }

  /** At most one process is between taking and releasing the lock. */
  lemma {:induction false} MutualExclusion<S>(initial: S, m: Machine<S>, labels: seq<Label<S>>, p: Pid, q: Pid)
    requires Quiet(m) && Run(initial, m, labels).Some?
    requires
      var now := Run(initial, m, labels).value;
      InLock(PhaseOf(now, p)) && InLock(PhaseOf(now, q))
    ensures p == q
  {
    RunKeepsInv(initial, m, labels);
    var now := Run(initial, m, labels).value;
    assert InLock(PhaseOf(now, p)) <==> now.holder == Some(p);
    assert InLock(PhaseOf(now, q)) <==> now.holder == Some(q);
  }

  // ---------------------------------------------------------------- returns and commits

  function CommittedBy<S>(ops: seq<Commit<S>>, p: Pid): seq<Op<S>> {
    if ops == [] then []
    else
      CommittedBy(ops[..|ops| - 1], p) + if ops[|ops| - 1].p == p then [ops[|ops| - 1].op] else []
  }

  /** The operations whose call returned normally to process `p`, in order. */
  function ReturnedTo<S>(initial: S, m: Machine<S>, labels: seq<Label<S>>, p: Pid): seq<Op<S>>
    requires Run(initial, m, labels).Some?
  {
    if labels == [] then []
    else
      var before := Run(initial, m, labels[..|labels| - 1]).value;
      var last := labels[|labels| - 1];
      ReturnedTo(initial, m, labels[..|labels| - 1], p) +
      if last.Exit? && last.p == p && PhaseOf(before, p).Committed? then [PhaseOf(before, p).op] else []
  }

  /** An operation that is renamed into place but whose caller has not (or never) heard of it. */
  function Unreported<S>(ph: Phase<S>): seq<Op<S>> {
    match ph
    case Committed(op) => [op]
    case Dead(limbo) => limbo
    case _ => []
  }

  function CommitBy<S>(before: Machine<S>, step: Label<S>, p: Pid): seq<Op<S>> {
    if step.Replace? && step.p == p && PhaseOf(before, p).Written? then [PhaseOf(before, p).op] else []
  }

  function ReturnTo<S>(before: Machine<S>, step: Label<S>, p: Pid): seq<Op<S>> {
    if step.Exit? && step.p == p && PhaseOf(before, p).Committed? then [PhaseOf(before, p).op] else []
  }

  /** One step moves an operation from committed to unreported, or from unreported to returned. */
  lemma {:induction false} StepReports<S>(initial: S, before: Machine<S>, step: Label<S>, p: Pid)
    requires Next(initial, before, step).Some?
    ensures Unreported(PhaseOf(before, p)) + CommitBy(before, step, p)
         == ReturnTo(before, step, p) + Unreported(PhaseOf(Next(initial, before, step).value, p))
  {
    var after := Next(initial, before, step).value;
    if step.p != p {
      assert PhaseOf(after, p) == PhaseOf(before, p);
    }
  }

  lemma {:induction false} CommittedBySnoc<S>(initial: S, m: Machine<S>, labels: seq<Label<S>>, p: Pid)
    requires labels != [] && Run(initial, m, labels).Some?
    ensures
      var prefix, last := labels[..|labels| - 1], labels[|labels| - 1];
      CommittedBy(Commits(initial, m, labels), p) ==
        CommittedBy(Commits(initial, m, prefix), p) + CommitBy(Run(initial, m, prefix).value, last, p)
  {
    var prefix, last := labels[..|labels| - 1], labels[|labels| - 1];
    var done := Commits(initial, m, prefix);
    var before := Run(initial, m, prefix).value;
    var extra := if last.Replace? && PhaseOf(before, last.p).Written? then [CommitOf(before, last.p)] else [];
    assert Commits(initial, m, labels) == done + extra;
    if extra == [] {
      assert done + extra == done;
    } else {
      assert (done + extra)[..|done|] == done;
    }
  }

  lemma {:induction false} ReturnedToSnoc<S>(initial: S, m: Machine<S>, labels: seq<Label<S>>, p: Pid)
    requires labels != [] && Run(initial, m, labels).Some?
    ensures
      var prefix, last := labels[..|labels| - 1], labels[|labels| - 1];
      ReturnedTo(initial, m, labels, p) ==
        ReturnedTo(initial, m, prefix, p) + ReturnTo(Run(initial, m, prefix).value, last, p)
  {
  }

  lemma {:induction false} Regroup<T>(committed: seq<T>, c: seq<T>, returned: seq<T>, r: seq<T>, before: seq<T>, after: seq<T>)
    requires committed == returned + before && before + c == r + after
    ensures committed + c == (returned + r) + after
  {
    assert (returned + before) + c == returned + (before + c);
    assert returned + (r + after) == (returned + r) + after;
  }

  /** A process's committed operations are exactly those that returned to it, in order, followed by
      at most the one it has not reported: a call that returns took effect exactly once, and a call
      that raised took no effect. */
  lemma {:induction false} ReturnsAreCommits<S>(initial: S, m: Machine<S>, labels: seq<Label<S>>, p: Pid)
    requires Quiet(m) && Run(initial, m, labels).Some?
    ensures CommittedBy(Commits(initial, m, labels), p)
         == ReturnedTo(initial, m, labels, p) + Unreported(PhaseOf(Run(initial, m, labels).value, p))
  {
    if labels != [] {
      var prefix, last := labels[..|labels| - 1], labels[|labels| - 1];
      var before, after := Run(initial, m, prefix).value, Run(initial, m, labels).value;
      ReturnsAreCommits(initial, m, prefix, p);
      CommittedBySnoc(initial, m, labels, p);
      ReturnedToSnoc(initial, m, labels, p);
      StepReports(initial, before, last, p);
      Regroup(CommittedBy(Commits(initial, m, prefix), p), CommitBy(before, last, p),
              ReturnedTo(initial, m, prefix, p), ReturnTo(before, last, p),
              Unreported(PhaseOf(before, p)), Unreported(PhaseOf(after, p)));
    }
  }

  // ---------------------------------------------------------------- lifting invariants of updaters

  ghost predicate Preserves<S(!new)>(op: Op<S>, good: S -> bool) {
    match op
    case Save(s) => good(s)
    case Update(f) => forall s :: good(s) && f(s).Some? ==> good(f(s).value)
  }

  ghost predicate OnlyBegins<S(!new)>(labels: seq<Label<S>>, good: S -> bool) {
    forall i :: 0 <= i < |labels| && labels[i].Begin? ==> Preserves(labels[i].op, good)
  }

  predicate HasOp<S>(ph: Phase<S>) {
    !ph.Idle? && !ph.Dead?
  }

  /** Whatever is true of every operation begun is true of every operation under way or committed. */
  lemma {:induction false} OpsWereBegun<S(!new)>(initial: S, m: Machine<S>, labels: seq<Label<S>>, fit: Op<S> -> bool)
    requires Quiet(m) && Run(initial, m, labels).Some?
    requires forall i :: 0 <= i < |labels| && labels[i].Begin? ==> fit(labels[i].op)
    ensures
      var now := Run(initial, m, labels).value;
      forall p: Pid :: HasOp(PhaseOf(now, p)) ==> fit(PhaseOf(now, p).op)
    ensures forall i :: 0 <= i < |Commits(initial, m, labels)| ==> fit(Commits(initial, m, labels)[i].op)
  {
    if labels != [] {
      var prefix, last := labels[..|labels| - 1], labels[|labels| - 1];
      OpsWereBegun(initial, m, prefix, fit);
      var before := Run(initial, m, prefix).value;
      var now := Run(initial, m, labels).value;
      forall p: Pid | HasOp(PhaseOf(now, p)) ensures fit(PhaseOf(now, p).op) {
        if p != last.p { assert PhaseOf(now, p) == PhaseOf(before, p); }
      }
    }
  }

  lemma {:induction false} FoldPreserves<S(!new)>(initial: S, v: Option<S>, commits: seq<Commit<S>>, good: S -> bool)
    requires v.Some? && good(v.value) && good(initial)
    requires forall i :: 0 <= i < |commits| ==> Preserves(commits[i].op, good)
    ensures Fold(initial, v, commits).Some? ==> good(Fold(initial, v, commits).value)
  {
    if commits != [] {
      FoldPreserves(initial, v, commits[..|commits| - 1], good);
      assert Preserves(commits[|commits| - 1].op, good);
    }
  }

  /** A property of the empty state and the stored one that every operation's updater keeps, one at a
      time, holds of every value any `load` returns in any interleaving, failed reads included. */
  lemma {:induction false} UpdaterInvariantsHold<S(!new)>(
    initial: S, m: Machine<S>, labels: seq<Label<S>>, i: nat, good: S -> bool)
    requires Quiet(m) && i <= |labels| && Run(initial, m, labels).Some? && OnlyBegins(labels, good)
    requires Value(initial, m.doc).Some? && good(Value(initial, m.doc).value) && good(initial)
    ensures Run(initial, m, labels[..i]).Some?
    ensures LoadAt(initial, m, labels, i).Some? ==> good(LoadAt(initial, m, labels, i).value)
  {
    PrefixRuns(initial, m, labels, i);
    LoadsSeeCommittedPrefixes(initial, m, labels, i, i);
    OpsWereBegun(initial, m, labels[..i], op => Preserves(op, good));
    FoldPreserves(initial, Value(initial, m.doc), Commits(initial, m, labels[..i]), good);
  }

  // ---------------------------------------------------------------- why the read is inside the lock

  function SaveSteps<S>(p: Pid, op: Op<S>): seq<Label<S>> {
    [Begin(p, op), Acquire(p), Read(p), OpenTemp(p), CloseTemp(p), Replace(p), Exit(p)]
  }

  lemma {:induction false} RunAppend<S>(initial: S, m: Machine<S>, a: seq<Label<S>>, b: seq<Label<S>>)
    requires Run(initial, m, a).Some?
    ensures Run(initial, m, a + b) == Run(initial, Run(initial, m, a).value, b)
  {
    if b == [] {
      assert a + b == a;
    } else {
      var front := b[..|b| - 1];
      assert (a + b)[..|a + b| - 1] == a + front;
      RunAppend(initial, m, a, front);
    }
  }

  lemma {:induction false} RunSnoc<S>(initial: S, m: Machine<S>, labels: seq<Label<S>>, step: Label<S>)
    requires Run(initial, m, labels).Some?
    ensures Run(initial, m, labels + [step]) == Next(initial, Run(initial, m, labels).value, step)
  {
    assert (labels + [step])[..|labels|] == labels;
  }

  /** The steps of a `save` up to the temporary file, and the machine they lead to. */
  lemma {:induction false} SaveEnters<S>(initial: S, m: Machine<S>, p: Pid, s: S) returns (ready: Machine<S>)
    requires m.holder.None? && PhaseOf(m, p).Idle?
    ensures Run(initial, m, [Begin(p, Save(s)), Acquire(p), Read(p)]) == Some(ready)
    ensures ready == Machine(m.doc, m.temp, Some(p), m.procs[p := Ready(Save(s), s, false)])
  {
    var op := Op.Save(s);
    assert Run(initial, m, []) == Some(m);
    RunSnoc(initial, m, [], Begin(p, op));
    assert [] + [Begin(p, op)] == [Begin(p, op)];
    RunSnoc(initial, m, [Begin(p, op)], Acquire(p));
    assert [Begin(p, op)] + [Acquire(p)] == [Begin(p, op), Acquire(p)];
    RunSnoc(initial, m, [Begin(p, op), Acquire(p)], Read(p));
    assert [Begin(p, op), Acquire(p)] + [Read(p)] == [Begin(p, op), Acquire(p), Read(p)];
    ready := Machine(m.doc, m.temp, Some(p), m.procs[p := Ready(op, s, false)]);
    assert m.procs[p := Waiting(op)][p := Holding(op)][p := Ready(op, s, false)] == m.procs[p := Ready(op, s, false)];
  }

  lemma {:induction false} TempIsWritten<S>(initial: S, ready: Machine<S>, p: Pid, op: Op<S>, s: S, blind: bool)
    requires PhaseOf(ready, p) == Ready(op, s, blind)
    ensures Run(initial, ready, [OpenTemp(p), CloseTemp(p)])
         == Some(Machine(ready.doc, Complete(s), ready.holder, ready.procs[p := Written(op, s, blind)]))
  {
    assert Run(initial, ready, []) == Some(ready);
    RunSnoc(initial, ready, [], OpenTemp(p));
    assert [] + [Label<S>.OpenTemp(p)] == [OpenTemp(p)];
    RunSnoc(initial, ready, [OpenTemp(p)], CloseTemp(p));
    assert [Label<S>.OpenTemp(p)] + [CloseTemp(p)] == [OpenTemp(p), CloseTemp(p)];
    assert ready.procs[p := Writing(op, s, blind)][p := Written(op, s, blind)] == ready.procs[p := Written(op, s, blind)];
  }

  /** The steps from a computed state to the released lock, for `save` and `update` alike. */
  lemma {:induction false} WriteFinishes<S>(initial: S, ready: Machine<S>, p: Pid, op: Op<S>, s: S, blind: bool)
    returns (after: Machine<S>)
    requires PhaseOf(ready, p) == Ready(op, s, blind)
    ensures Run(initial, ready, [OpenTemp(p), CloseTemp(p), Replace(p), Exit(p)]) == Some(after)
    ensures after == Machine(Stored(s), NoTemp, None, ready.procs[p := Idle])
  {
    TempIsWritten(initial, ready, p, op, s, blind);
    RunSnoc(initial, ready, [OpenTemp(p), CloseTemp(p)], Replace(p));
    assert [Label<S>.OpenTemp(p), CloseTemp(p)] + [Replace(p)] == [OpenTemp(p), CloseTemp(p), Replace(p)];
    RunSnoc(initial, ready, [OpenTemp(p), CloseTemp(p), Replace(p)], Exit(p));
    assert [Label<S>.OpenTemp(p), CloseTemp(p), Replace(p)] + [Exit(p)] == [OpenTemp(p), CloseTemp(p), Replace(p), Exit(p)];
    after := Machine(Stored(s), NoTemp, None, ready.procs[p := Idle]);
    assert ready.procs[p := Written(op, s, blind)][p := Committed(op)][p := Idle] == ready.procs[p := Idle];
  }

  /** An uncontended `save` goes through. */
  lemma {:induction false} SaveGoesThrough<S>(initial: S, m: Machine<S>, p: Pid, s: S)
    requires m.holder.None? && PhaseOf(m, p).Idle?
    ensures
      var after := Run(initial, m, SaveSteps(p, Save(s)));
      after.Some? && after.value.doc == Stored(s) && after.value.holder.None? &&
      forall q: Pid :: PhaseOf(after.value, q) == PhaseOf(m, q)
  {
    var enter: seq<Label<S>> := [Begin(p, Save(s)), Acquire(p), Read(p)];
    var finish: seq<Label<S>> := [OpenTemp(p), CloseTemp(p), Replace(p), Exit(p)];
    var ready := SaveEnters(initial, m, p, s);
    var after := WriteFinishes(initial, ready, p, Op.Save(s), s, false);
    RunAppend(initial, m, enter, finish);
    assert SaveSteps(p, Save(s)) == enter + finish;
  }

  /** A failed read loses a stored state for good: an uncontended `update` whose read fails stores what its
      updater makes of the empty state, whatever was there. */
  lemma {:induction false} FailedReadOverwrites<S>(initial: S, m: Machine<S>, p: Pid, f: S -> Option<S>)
    requires m.holder.None? && PhaseOf(m, p).Idle? && f(initial).Some?
    ensures
      var enter: seq<Label<S>> := [Begin(p, Update(f)), Acquire(p), ReadFails(p), Compute(p)];
      var after := Run(initial, m, enter + [OpenTemp(p), CloseTemp(p), Replace(p), Exit(p)]);
      after.Some? && after.value.doc == Stored(f(initial).value)
  {
    var op := Op.Update(f);
    var next := f(initial).value;
    assert Run(initial, m, []) == Some(m);
    RunSnoc(initial, m, [], Begin(p, op));
    assert [] + [Begin(p, op)] == [Begin(p, op)];
    RunSnoc(initial, m, [Begin(p, op)], Acquire(p));
    assert [Begin(p, op)] + [Acquire(p)] == [Begin(p, op), Acquire(p)];
    RunSnoc(initial, m, [Begin(p, op), Acquire(p)], ReadFails(p));
    assert [Begin(p, op), Acquire(p)] + [ReadFails(p)] == [Begin(p, op), Acquire(p), ReadFails(p)];
    RunSnoc(initial, m, [Begin(p, op), Acquire(p), ReadFails(p)], Compute(p));
    assert [Begin(p, op), Acquire(p), ReadFails(p)] + [Compute(p)] == [Begin(p, op), Acquire(p), ReadFails(p), Compute(p)];
    var enter: seq<Label<S>> := [Begin(p, op), Acquire(p), ReadFails(p), Compute(p)];
    var ready := Run(initial, m, enter).value;
    assert PhaseOf(ready, p) == Ready(op, next, true);
    var after := WriteFinishes(initial, ready, p, op, next, true);
    RunAppend(initial, m, enter, [OpenTemp(p), CloseTemp(p), Replace(p), Exit(p)]);
  }

  function Total<S>(f: S -> S): S -> Option<S> {
    s => Some(f(s))
  }

  /** In this run somebody loads at `i` and at `j` renames the `Save` of `f` of what that load returned. */
  ghost predicate LoadsThenSaves<S>(initial: S, m: Machine<S>, labels: seq<Label<S>>, i: nat, j: nat, f: S -> S) {
    && Quiet(m) && i < j < |labels|
    && Run(initial, m, labels[..i]).Some? && Run(initial, m, labels[..j]).Some? && Run(initial, m, labels[..j + 1]).Some?
    && labels[i].Load? && LoadAt(initial, m, labels, i).Some? && labels[j].Replace?
    && var ph := PhaseOf(Run(initial, m, labels[..j]).value, labels[j].p);
       ph.Written? && ph.op == Save(f(LoadAt(initial, m, labels, i).value))
  }

  /** The rename at `j` stores what an `update` with `f` would have stored there. */
  ghost predicate StoresAsUpdate<S>(initial: S, m: Machine<S>, labels: seq<Label<S>>, j: nat, f: S -> S)
    requires j < |labels| && Run(initial, m, labels[..j]).Some? && Run(initial, m, labels[..j + 1]).Some?
  {
    LoadAt(initial, m, labels, j + 1) == ApplyOp(Update(Total(f)), LoadAt(initial, m, labels, j))
  }

  /** What a load could read stays readable: nobody in the protocol writes what cannot be read. */
  lemma {:induction false} StaysReadable<S>(initial: S, m: Machine<S>, labels: seq<Label<S>>, i: nat)
    requires i <= |labels| && Run(initial, m, labels).Some?
    requires Run(initial, m, labels[..i]).Some? && LoadAt(initial, m, labels, i).Some?
    ensures Value(initial, Run(initial, m, labels).value.doc).Some?
  {
    if i == |labels| {
      assert labels[..i] == labels;
    } else {
      var front := labels[..|labels| - 1];
      assert front[..i] == labels[..i];
      StaysReadable(initial, m, front, i);
    }
  }

  /** A client that loads, computes `f` of what it saw and saves the result: the stored state is the one in
      which every commit since the load is left out.  It is what an `update` with `f` would have stored
      exactly when `f` cannot tell the state at the load from the state at the rename, so whenever nothing
      was committed in between. */
  lemma {:induction false} LoadThenSaveIsUpdateIff<S>(
    initial: S, m: Machine<S>, labels: seq<Label<S>>, i: nat, j: nat, f: S -> S)
    requires LoadsThenSaves(initial, m, labels, i, j, f)
    ensures
      var seen, before := LoadAt(initial, m, labels, i), LoadAt(initial, m, labels, j);
      var after := LoadAt(initial, m, labels, j + 1);
      && before.Some? && after == Some(f(seen.value))
      && after == Fold(initial, Value(initial, m.doc),
                       Commits(initial, m, labels[..i]) + [Commit(labels[j].p, Update(Total(f)), false)])
      && (StoresAsUpdate(initial, m, labels, j, f) <==> f(before.value) == f(seen.value))
      && (Commits(initial, m, labels[..j]) == Commits(initial, m, labels[..i]) ==> StoresAsUpdate(initial, m, labels, j, f))
  {
    SaveIsStored(initial, m, labels, j, f(LoadAt(initial, m, labels, i).value));
    UpdateFolds(initial, m, labels[..i], labels[j].p, f);
    SameCommitsSameState(initial, m, labels[..i], labels[..j]);
    assert labels[..j][..i] == labels[..i];
    StaysReadable(initial, m, labels[..j], i);
  }

  lemma {:induction false} UpdateFolds<S>(initial: S, m: Machine<S>, labels: seq<Label<S>>, p: Pid, f: S -> S)
    requires Quiet(m) && Run(initial, m, labels).Some?
    ensures Fold(initial, Value(initial, m.doc), Commits(initial, m, labels) + [Commit(p, Update(Total(f)), false)])
         == ApplyOp(Update(Total(f)), Value(initial, Run(initial, m, labels).value.doc))
  {
    StoredIsFoldOfCommits(initial, m, labels);
    var done := Commits(initial, m, labels);
    assert (done + [Commit(p, Op.Update(Total(f)), false)])[..|done|] == done;
  }

  lemma {:induction false} SameCommitsSameState<S>(initial: S, m: Machine<S>, a: seq<Label<S>>, b: seq<Label<S>>)
    requires Quiet(m) && Run(initial, m, a).Some? && Run(initial, m, b).Some?
    ensures Commits(initial, m, b) == Commits(initial, m, a) ==>
              Value(initial, Run(initial, m, b).value.doc) == Value(initial, Run(initial, m, a).value.doc)
  {
    StoredIsFoldOfCommits(initial, m, a);
    StoredIsFoldOfCommits(initial, m, b);
  }

  lemma {:induction false} SaveIsStored<S>(initial: S, m: Machine<S>, labels: seq<Label<S>>, j: nat, s: S)
    requires Quiet(m) && j < |labels| && Run(initial, m, labels[..j + 1]).Some?
    requires Run(initial, m, labels[..j]).Some? && labels[j].Replace?
    requires
      var ph := PhaseOf(Run(initial, m, labels[..j]).value, labels[j].p);
      ph.Written? && ph.op == Save(s)
    ensures LoadAt(initial, m, labels, j + 1) == Some(s)
  {
    assert labels[..j + 1][..j] == labels[..j];
    RunKeepsInv(initial, m, labels[..j]);
    StepAppliesCommit(initial, Run(initial, m, labels[..j]).value, labels[j]);
  }

  /** Two clients that load the same state and save `f` and `g` of it one after the other: the second save
      stores `g(seen)`, so the first client's change is lost unless `g` undoes it anyway. */
  lemma {:induction false} LoadThenSaveLosesAnUpdate<S>(
    initial: S, m: Machine<S>, p: Pid, q: Pid, f: S -> S, g: S -> S)
    requires Quiet(m) && p != q && Value(initial, m.doc).Some?
    ensures
      var seen := Value(initial, m.doc).value;
      var loads: seq<Label<S>> := [Load(p), Load(q)];
      var first := loads + SaveSteps(p, Save(f(seen)));
      var both := first + SaveSteps(q, Save(g(seen)));
      && Run(initial, m, first).Some? && Value(initial, Run(initial, m, first).value.doc) == Some(f(seen))
      && Run(initial, m, both).Some? && Value(initial, Run(initial, m, both).value.doc) == Some(g(seen))
      && (Value(initial, Run(initial, m, both).value.doc) == Some(g(f(seen))) <==> g(f(seen)) == g(seen))
  {
    var seen := Value(initial, m.doc).value;
    var loads: seq<Label<S>> := [Load(p), Load(q)];
    var first := loads + SaveSteps(p, Save(f(seen)));
    assert loads[..1] == [Load(p)] && loads[..1][..0] == [];
    assert Run(initial, m, loads[..1]) == Some(m);
    assert Run(initial, m, loads) == Some(m);
    RunAppend(initial, m, loads, SaveSteps(p, Save(f(seen))));
    SaveGoesThrough(initial, m, p, f(seen));
    var mid := Run(initial, m, first).value;
    RunAppend(initial, m, first, SaveSteps(q, Save(g(seen))));
    SaveGoesThrough(initial, mid, q, g(seen));
  }

  ghost predicate AlwaysAsUpdate<S(!new)>(initial: S, f: S -> S) {
    forall m: Machine<S>, labels: seq<Label<S>>, i: nat, j: nat :: LoadsThenSaves(initial, m, labels, i, j, f) ==>
      StoresAsUpdate(initial, m, labels, j, f)
  }

  /** Loading and saving `f` does as well as updating with `f`, whatever others commit in between, exactly
      when `f` is constant. */
  lemma {:induction false} LoadThenSaveSafeIffConstant<S(!new)>(initial: S, f: S -> S)
    ensures AlwaysAsUpdate(initial, f) <==> forall s: S, t: S :: f(s) == f(t)
  {
    if forall s: S, t: S :: f(s) == f(t) {
      forall m: Machine<S>, labels: seq<Label<S>>, i: nat, j: nat | LoadsThenSaves(initial, m, labels, i, j, f)
        ensures StoresAsUpdate(initial, m, labels, j, f)
      {
        LoadThenSaveIsUpdateIff(initial, m, labels, i, j, f);
      }
    }
    if AlwaysAsUpdate(initial, f) {
      forall s: S, t: S ensures f(s) == f(t) {
        var labels := SaveInBetween(initial, f, s, t);
        assert StoresAsUpdate(initial, Machine(Stored(s), NoTemp, None, map[]), labels, 13, f);
      }
    }
  }

  lemma {:induction false} SaveIsWritten<S>(initial: S, m: Machine<S>, p: Pid, s: S) returns (before: Machine<S>)
    requires m.holder.None? && PhaseOf(m, p).Idle?
    ensures Run(initial, m, SaveSteps(p, Save(s))[..5]) == Some(before)
    ensures before.doc == m.doc && PhaseOf(before, p) == Written(Save(s), s, false)
  {
    var enter: seq<Label<S>> := [Begin(p, Save(s)), Acquire(p), Read(p)];
    var ready := SaveEnters(initial, m, p, s);
    TempIsWritten(initial, ready, p, Op.Save(s), s, false);
    RunAppend(initial, m, enter, [OpenTemp(p), CloseTemp(p)]);
    assert SaveSteps(p, Save(s))[..5] == enter + [OpenTemp(p), CloseTemp(p)];
    before := Machine(ready.doc, Complete(s), ready.holder, ready.procs[p := Written(Op.Save(s), s, false)]);
  }

  /** One process loads `s`, another stores `t`, and then the first is about to rename `s'`. */
  lemma {:induction false} SaveWaits<S>(initial: S, s: S, t: S, s': S) returns (labels: seq<Label<S>>, before: Machine<S>)
    ensures |labels| == 15 && labels[0] == Load(0) && labels[13] == Replace(0)
    ensures
      var m: Machine<S> := Machine(Stored(s), NoTemp, None, map[]);
      && Run(initial, m, labels[..13]) == Some(before)
      && before.doc == Stored(t) && PhaseOf(before, 0) == Written(Save(s'), s', false)
  {
    var m: Machine<S> := Machine(Stored(s), NoTemp, None, map[]);
    var head: seq<Label<S>> := [Load(0)];
    var mine: seq<Label<S>> := SaveSteps(0, Save(s'));
    var first := head + SaveSteps(1, Save(t));
    labels := first + mine;
    assert head[..0] == [] && Run(initial, m, head) == Some(m);
    RunAppend(initial, m, head, SaveSteps(1, Save(t)));
    SaveGoesThrough(initial, m, 1, t);
    var mid := Run(initial, m, first).value;
    before := SaveIsWritten(initial, mid, 0, s');
    RunAppend(initial, m, first, mine[..5]);
    assert labels[..13] == first + mine[..5];
  }

  lemma {:induction false} SaveInBetween<S>(initial: S, f: S -> S, s: S, t: S) returns (labels: seq<Label<S>>)
    ensures
      var m: Machine<S> := Machine(Stored(s), NoTemp, None, map[]);
      && |labels| == 15 && LoadsThenSaves(initial, m, labels, 0, 13, f)
      && LoadAt(initial, m, labels, 13) == Some(t) && LoadAt(initial, m, labels, 14) == Some(f(s))
  {
    var m: Machine<S> := Machine(Stored(s), NoTemp, None, map[]);
    var before: Machine<S>;
    labels, before := SaveWaits(initial, s, t, f(s));
    assert labels[..14] == labels[..13] + [Replace(0)] && labels[..0] == [];
    RunSnoc(initial, m, labels[..13], Label<S>.Replace(0));
    RunKeepsInv(initial, m, labels[..13]);
    assert PhaseInv(initial, before, PhaseOf(before, 0));
    SaveIsStored(initial, m, labels, 13, f(s));
  }
}
