/**
 The desktop host's appearance preference: `set` applies a choice at once and queues a write of the
 preference document; each write makes the directory, writes a temporary file and renames it over the
 document.  Any step may fail and the host may crash between any two of them, after which a new
 session opens with whatever the document says.

 A queued write starts when the write before it has settled, either way, which is what chaining each
 one on the caught tail of the chain amounts to.
 */
module HostPreferences {
  import opened Wrappers

  datatype Preference = System | Light | Dark

  /** A file's content: a write cut short, text that is no document of this schema, or a document
      whose preference field is any text at all. */
  datatype File = Torn | Foreign | Document(preference: string)

  type Uuid = string

  datatype Stage =
    | Waiting
    | MakingDir
    | Creating
    | Writing(temp: Uuid)
    | Renaming(temp: Uuid)
    | Removing(temp: Uuid)
    | Done(ok: bool)

  datatype Write = Write(preference: Preference, after: Option<nat>, stage: Stage)

  datatype Host = Host(
    doc: Option<File>,
    temps: map<Uuid, File>,
    found: Option<File>,  // the document when the session opened
    theme: Preference,
    writes: seq<Write>,    // the session's writes in call order
    tail: Option<nat>)

  datatype Step =
    | Set(value: string)
    | Start(i: nat)
    | MakeDir(i: nat, ok: bool)
    | Create(i: nat, temp: Uuid, ok: bool)
    | Fill(i: nat, ok: bool)
    | Rename(i: nat, ok: bool)
    | Remove(i: nat, ok: bool)
    | Crash

  function Text(p: Preference): string {
    match p case System => "system" case Light => "light" case Dark => "dark"
  }

  function Validate(value: string): Option<Preference> {
    if value == "system" then Some(System)
    else if value == "light" then Some(Light)
    else if value == "dark" then Some(Dark)
    else None
  }

  /** A missing, torn or foreign file and an unknown preference all mean "follow the system". */
  function Read(doc: Option<File>): Preference {
    match doc
    case Some(Document(text)) => (match Validate(text) case Some(p) => p case None => System)
    case _ => System
  }

  /** A session opens by reading the document. */
  function Open(doc: Option<File>, temps: map<Uuid, File>): Host {
    Host(doc, temps, doc, Read(doc), [], None)
  }

  predicate Settled(h: Host, i: nat) {
    i < |h.writes| && h.writes[i].stage.Done?
  }

  predicate Active(h: Host, i: nat) {
    i < |h.writes| && !h.writes[i].stage.Done? && !h.writes[i].stage.Waiting?
  }

  function At(h: Host, i: nat, stage: Stage): Host
    requires i < |h.writes|
  {
    h.(writes := h.writes[i := h.writes[i].(stage := stage)])
  }

  predicate CanStart(h: Host, i: nat)
    requires i < |h.writes|
  {
    h.writes[i].stage.Waiting? && (h.writes[i].after.Some? ==> Settled(h, h.writes[i].after.value))
  }

  /** One step; `None` when the step is not enabled. */
  function Next(h: Host, step: Step): Option<Host> {
    match step
    case Crash => Some(Open(h.doc, h.temps))
    case Set(value) =>
      (match Validate(value)
       case None => Some(h)
       case Some(p) => Some(h.(theme := p, writes := h.writes + [Write(p, h.tail, Waiting)], tail := Some(|h.writes|))))
    case _ => if step.i < |h.writes| then WriteStep(h, step) else None
  }

  function WriteStep(h: Host, step: Step): Option<Host>
    requires !step.Crash? && !step.Set? && step.i < |h.writes|
  {
    var i := step.i;
    var stage := h.writes[i].stage;
    match step
    case Start(_) => if CanStart(h, i) then Some(At(h, i, MakingDir)) else None
    case MakeDir(_, ok) => if stage.MakingDir? then Some(At(h, i, if ok then Creating else Done(false))) else None
    case Create(_, temp, ok) =>
      if !stage.Creating? then None
      else if ok && temp !in h.temps then Some(At(h, i, Writing(temp)).(temps := h.temps[temp := Torn]))
      else Some(At(h, i, Removing(temp)))
    case Fill(_, ok) =>
      if !stage.Writing? then None
      else if ok then Some(At(h, i, Renaming(stage.temp)).(temps := h.temps[stage.temp := Document(Text(h.writes[i].preference))]))
      else Some(At(h, i, Removing(stage.temp)))
    case Rename(_, ok) =>
      if !stage.Renaming? then None
      else if ok && stage.temp in h.temps then
        Some(At(h, i, Done(true)).(doc := Some(h.temps[stage.temp]), temps := h.temps - {stage.temp}))
      else Some(At(h, i, Removing(stage.temp)))
    case Remove(_, ok) =>
      if !stage.Removing? then None
      else Some(At(h, i, Done(false)).(temps := if ok then h.temps - {stage.temp} else h.temps))
  }

  /** The renderer's call: the theme changes at once, the write is chained on the tail. */
  class DesktopAppearance {
    var theme: Preference
    var writes: seq<Write>
    var tail: Option<nat>

    constructor (doc: Option<File>)
      ensures forall temps :: Value(doc, temps, doc) == Open(doc, temps)
    {
      theme := Read(doc);
      writes, tail := [], None;
    }

    function Value(doc: Option<File>, temps: map<Uuid, File>, found: Option<File>): Host
      reads this
    {
      Host(doc, temps, found, theme, writes, tail)
    }

    method Run(p: Preference)
      modifies this`writes, this`tail
      ensures writes == old(writes) + [Write(p, old(tail), Waiting)] && tail == Some(old(|writes|))
    {
      writes := writes + [Write(p, tail, Waiting)];
      tail := Some(|writes| - 1);
    }

    method SetTheme(value: string) returns (ok: bool)
      modifies this
      ensures ok == Validate(value).Some?
      ensures forall doc, temps, found ::
                Some(Value(doc, temps, found)) == Next(old(Value(doc, temps, found)), Set(value))
    {
      var valid := Validate(value);
      if valid.None? {
        return false;
      }
      if valid.value != theme {
        theme := valid.value;
      }
      Run(valid.value);
      ok := true;
    }
  }

  // ---------------------------------------------------------------- what every step keeps

  ghost predicate Chained(h: Host) {
    && h.tail == (if h.writes == [] then None else Some(|h.writes| - 1))
    && forall i :: 0 <= i < |h.writes| ==> h.writes[i].after == if i == 0 then None else Some(i - 1)
  }

  /** Every write before one that has started has settled. */
  ghost predicate InOrder(h: Host) {
    forall i, j :: 0 <= i < j < |h.writes| && !h.writes[j].stage.Waiting? ==> h.writes[i].stage.Done?
  }

  ghost predicate TempsReady(h: Host) {
    forall i :: 0 <= i < |h.writes| && h.writes[i].stage.Renaming? ==>
      var temp := h.writes[i].stage.temp;
      temp in h.temps && h.temps[temp] == Document(Text(h.writes[i].preference))
  }

  /** The document as its writes left it: the last one to succeed decides. */
  function DocAfter(found: Option<File>, writes: seq<Write>): Option<File> {
    if writes == [] then found
    else
      var last := writes[|writes| - 1];
      if last.stage == Done(true) then Some(Document(Text(last.preference))) else DocAfter(found, writes[..|writes| - 1])
  }

  ghost predicate Inv(h: Host) {
    && Chained(h) && InOrder(h) && TempsReady(h)
    && h.doc == DocAfter(h.found, h.writes)
    && h.theme == if h.writes == [] then Read(h.found) else h.writes[|h.writes| - 1].preference
  }

  lemma {:induction false} ReadsWhatWasWritten(p: Preference)
    ensures Validate(Text(p)) == Some(p) && Read(Some(Document(Text(p)))) == p
    ensures forall value :: Validate(value) == Some(p) ==> value == Text(p)
  {
  }

  lemma {:induction false} DocAfterUpdate(found: Option<File>, writes: seq<Write>, i: nat, stage: Stage)
    requires i < |writes| && writes[i].stage != Done(true)
    ensures
      var after := DocAfter(found, writes[i := writes[i].(stage := stage)]);
      if stage != Done(true) then after == DocAfter(found, writes)
      else (forall j :: i < j < |writes| ==> writes[j].stage.Waiting?) ==>
             after == Some(Document(Text(writes[i].preference)))
  {
    var updated := writes[i := writes[i].(stage := stage)];
    if i == |writes| - 1 {
      assert updated[..|writes| - 1] == writes[..|writes| - 1];
    } else {
      var front := writes[..|writes| - 1];
      DocAfterUpdate(found, front, i, stage);
      assert updated[..|writes| - 1] == front[i := front[i].(stage := stage)];
    }
  }

  lemma {:induction false} StartKeepsOrder(h: Host, i: nat)
    requires Inv(h) && i < |h.writes| && CanStart(h, i)
    ensures InOrder(At(h, i, MakingDir))
  {
    forall k | 0 <= k < i
      ensures h.writes[k].stage.Done?
    {
      assert h.writes[i].after == Some(i - 1);
      assert !h.writes[i - 1].stage.Waiting?;
    }
  }

  lemma {:induction false} AdvanceKeepsOrder(h: Host, i: nat, stage: Stage)
    requires InOrder(h) && i < |h.writes| && !h.writes[i].stage.Waiting? && !h.writes[i].stage.Done?
    ensures InOrder(At(h, i, stage))
    ensures forall j :: i < j < |h.writes| ==> h.writes[j].stage.Waiting?
    ensures forall j :: 0 <= j < i ==> h.writes[j].stage.Done?
  {
  }

  lemma {:induction false} WriteStepKeepsTemps(h: Host, step: Step)
    requires InOrder(h) && TempsReady(h)
    requires !step.Crash? && !step.Set? && step.i < |h.writes| && WriteStep(h, step).Some?
    ensures TempsReady(WriteStep(h, step).value)
  {
    if !step.Start? {
      AdvanceKeepsOrder(h, step.i, h.writes[step.i].stage);
    }
  }

  lemma {:induction false} WriteStepKeepsDoc(h: Host, step: Step)
    requires InOrder(h) && TempsReady(h) && h.doc == DocAfter(h.found, h.writes)
    requires !step.Crash? && !step.Set? && step.i < |h.writes| && WriteStep(h, step).Some?
    ensures WriteStep(h, step).value.doc == DocAfter(h.found, WriteStep(h, step).value.writes)
  {
    var stage := WriteStep(h, step).value.writes[step.i].stage;
    DocAfterUpdate(h.found, h.writes, step.i, stage);
    assert WriteStep(h, step).value.writes == h.writes[step.i := h.writes[step.i].(stage := stage)];
    if !step.Start? {
      AdvanceKeepsOrder(h, step.i, stage);
    }
  }

  lemma {:induction false} WriteStepKeepsInv(h: Host, step: Step)
    requires Inv(h) && !step.Crash? && !step.Set? && step.i < |h.writes| && WriteStep(h, step).Some?
    ensures Inv(WriteStep(h, step).value)
  {
    var i, h' := step.i, WriteStep(h, step).value;
    WriteStepKeepsTemps(h, step);
    WriteStepKeepsDoc(h, step);
    if step.Start? {
      StartKeepsOrder(h, i);
    } else {
      AdvanceKeepsOrder(h, i, h'.writes[i].stage);
      assert h'.writes == At(h, i, h'.writes[i].stage).writes;
    }
  }

  lemma {:induction false} QueuedKeepsOrder(h: Host, w: Write)
    requires Chained(h) && InOrder(h) && TempsReady(h) && w.after == h.tail && w.stage == Waiting
    ensures Chained(Queued(h, w)) && InOrder(Queued(h, w)) && TempsReady(Queued(h, w))
  {
  }

  lemma {:induction false} QueuedKeepsDoc(found: Option<File>, writes: seq<Write>, w: Write)
    requires w.stage == Waiting
    ensures DocAfter(found, writes + [w]) == DocAfter(found, writes)
  {
    assert (writes + [w])[..|writes|] == writes;
  }

  function Queued(h: Host, w: Write): Host {
    h.(theme := w.preference, writes := h.writes + [w], tail := Some(|h.writes|))
  }

  lemma {:induction false} SetKeepsInv(h: Host, value: string)
    requires Inv(h)
    ensures Inv(Next(h, Set(value)).value)
  {
    var valid := Validate(value);
    if valid.Some? {
      var w := Write(valid.value, h.tail, Waiting);
      QueuedKeepsOrder(h, w);
      QueuedKeepsDoc(h.found, h.writes, w);
      assert Next(h, Set(value)).value == Queued(h, w);
    }
  }

  lemma {:induction false} StepKeepsInv(h: Host, step: Step)
    requires Inv(h) && Next(h, step).Some?
    ensures Inv(Next(h, step).value)
  {
    if step.Set? {
      SetKeepsInv(h, step.value);
    } else if !step.Crash? {
      WriteStepKeepsInv(h, step);
    }
  }

  function Run(h: Host, steps: seq<Step>): Option<Host> {
    if steps == [] then Some(h)
    else match Run(h, steps[..|steps| - 1])
         case None => None
         case Some(before) => Next(before, steps[|steps| - 1])
  }

  lemma {:induction false} RunKeepsInv(doc: Option<File>, temps: map<Uuid, File>, steps: seq<Step>)
    requires Run(Open(doc, temps), steps).Some?
    ensures Inv(Run(Open(doc, temps), steps).value)
  {
    if steps != [] {
      RunKeepsInv(doc, temps, steps[..|steps| - 1]);
      StepKeepsInv(Run(Open(doc, temps), steps[..|steps| - 1]).value, steps[|steps| - 1]);
    }
  }

  // ---------------------------------------------------------------- what it means

  /** Writes never overlap, and they settle in call order. */
  lemma {:induction false} WritesNeverOverlap(doc: Option<File>, temps: map<Uuid, File>, steps: seq<Step>, i: nat, j: nat)
    requires Run(Open(doc, temps), steps).Some?
    ensures
      var h := Run(Open(doc, temps), steps).value;
      && (Active(h, i) && Active(h, j) ==> i == j)
      && (i < j && (Active(h, j) || Settled(h, j)) ==> Settled(h, i))
  {
    RunKeepsInv(doc, temps, steps);
  }

  predicate WasSet(steps: seq<Step>, file: File) {
    exists k :: 0 <= k < |steps| && steps[k].Set? && Validate(steps[k].value).Some? && file == Document(steps[k].value)
  }

  lemma {:induction false} QueuedWereSet(doc: Option<File>, temps: map<Uuid, File>, steps: seq<Step>)
    requires Run(Open(doc, temps), steps).Some?
    ensures
      var h := Run(Open(doc, temps), steps).value;
      forall i :: 0 <= i < |h.writes| ==> WasSet(steps, Document(Text(h.writes[i].preference)))
  {
    if steps != [] {
      var front, step := steps[..|steps| - 1], steps[|steps| - 1];
      QueuedWereSet(doc, temps, front);
      var before := Run(Open(doc, temps), front).value;
      forall file | WasSet(front, file)
        ensures WasSet(steps, file)
      {
        var k :| 0 <= k < |front| && front[k].Set? && Validate(front[k].value).Some? && file == Document(front[k].value);
        assert steps[k] == front[k];
      }
      if step.Set? && Validate(step.value).Some? {
        ReadsWhatWasWritten(Validate(step.value).value);
        assert steps[|steps| - 1] == step;
        assert WasSet(steps, Document(step.value));
      }
    }
  }

  /** At every point of every run, crashes and failures included, the document is the one the first
      session found, or a whole document that some `set` call asked for: never a torn one. */
  lemma {:induction false} DocumentIsOldOrNew(doc: Option<File>, temps: map<Uuid, File>, steps: seq<Step>)
    requires Run(Open(doc, temps), steps).Some?
    ensures
      var h := Run(Open(doc, temps), steps).value;
      h.doc == doc || (h.doc.Some? && WasSet(steps, h.doc.value))
  {
    if steps != [] {
      var front, step := steps[..|steps| - 1], steps[|steps| - 1];
      DocumentIsOldOrNew(doc, temps, front);
      var before := Run(Open(doc, temps), front).value;
      RunKeepsInv(doc, temps, front);
      QueuedWereSet(doc, temps, steps);
      QueuedWereSet(doc, temps, front);
      if before.doc.Some? && WasSet(front, before.doc.value) {
        var k :| 0 <= k < |front| && front[k].Set? && Validate(front[k].value).Some?
                 && before.doc.value == Document(front[k].value);
        assert steps[k] == front[k];
      }
      if step.Rename? && step.ok {
        assert before.doc == Next(before, step).value.doc
               || Next(before, step).value.doc == Some(Document(Text(Next(before, step).value.writes[step.i].preference)));
      }
    }
  }

  /** What the next session opens with is the choice in force exactly when the last write to succeed in
      this session, or the opening document when none has, holds that choice; it does so once the queue
      has drained and its last write succeeded. */
  lemma {:induction false} RestartRestoresChoice(doc: Option<File>, temps: map<Uuid, File>, steps: seq<Step>)
    requires Run(Open(doc, temps), steps + [Crash]).Some? && Run(Open(doc, temps), steps).Some?
    ensures
      var h := Run(Open(doc, temps), steps).value;
      var reopened := Run(Open(doc, temps), steps + [Crash]).value;
      && (reopened.theme == h.theme <==> Read(DocAfter(h.found, h.writes)) == h.theme)
      && (h.writes == [] || h.writes[|h.writes| - 1].stage == Done(true) ==> reopened.theme == h.theme)
  {
    var h := Run(Open(doc, temps), steps).value;
    assert (steps + [Crash])[..|steps|] == steps;
    RunKeepsInv(doc, temps, steps);
    if h.writes != [] {
      ReadsWhatWasWritten(h.writes[|h.writes| - 1].preference);
    }
  }

  // ---------------------------------------------------------------- a failure blocks nothing

  function StageWork(stage: Stage): nat {
    match stage
    case Waiting => 6
    case MakingDir => 5
    case Creating => 4
    case Writing(_) => 3
    case Renaming(_) => 2
    case Removing(_) => 1
    case Done(_) => 0
  }

  function Work(writes: seq<Write>): nat {
    if writes == [] then 0 else Work(writes[..|writes| - 1]) + StageWork(writes[|writes| - 1].stage)
  }

  lemma {:induction false} WorkUpdate(writes: seq<Write>, i: nat, stage: Stage)
    requires i < |writes|
    ensures Work(writes[i := writes[i].(stage := stage)]) == Work(writes) - StageWork(writes[i].stage) + StageWork(stage)
  {
    var updated := writes[i := writes[i].(stage := stage)];
    if i == |writes| - 1 {
      assert updated[..|writes| - 1] == writes[..|writes| - 1];
    } else {
      var front := writes[..|writes| - 1];
      WorkUpdate(front, i, stage);
      assert updated[..|writes| - 1] == front[i := front[i].(stage := stage)];
    }
  }

  lemma {:induction false} NoWorkAllDone(writes: seq<Write>)
    ensures Work(writes) == 0 <==> forall i :: 0 <= i < |writes| ==> writes[i].stage.Done?
  {
    if writes != [] {
      var front := writes[..|writes| - 1];
      NoWorkAllDone(front);
      assert writes == front + [writes[|writes| - 1]];
    }
  }

  predicate IsWriteStep(step: Step, i: nat) {
    !step.Set? && !step.Crash? && step.i == i
  }

  lemma {:induction false} FirstUnsettled(h: Host) returns (i: nat)
    requires Work(h.writes) != 0
    ensures i < |h.writes| && !Settled(h, i) && forall k: nat :: k < i ==> Settled(h, k)
  {
    NoWorkAllDone(h.writes);
    var unsettled :| 0 <= unsettled < |h.writes| && !h.writes[unsettled].stage.Done?;
    i := 0;
    while Settled(h, i)
      invariant i <= unsettled && forall k: nat :: k < i ==> Settled(h, k)
      decreases |h.writes| - i
    {
      i := i + 1;
    }
  }

  ghost function StepOf(h: Host, i: nat): (step: Step)
    requires Inv(h) && i < |h.writes| && !Settled(h, i) && forall k: nat :: k < i ==> Settled(h, k)
    ensures IsWriteStep(step, i) && Next(h, step).Some?
  {
    match h.writes[i].stage
    case Waiting => assert i > 0 ==> Settled(h, i - 1); Start(i)
    case MakingDir => MakeDir(i, true)
    case Creating => Create(i, "", true)
    case Writing(_) => Fill(i, true)
    case Renaming(_) => Rename(i, true)
    case _ => Remove(i, true)
  }

  lemma {:induction false} StepUsesWork(h: Host, step: Step)
    requires !step.Set? && !step.Crash? && Next(h, step).Some?
    ensures Work(Next(h, step).value.writes) < Work(h.writes) && |Next(h, step).value.writes| == |h.writes|
  {
    var stage := Next(h, step).value.writes[step.i].stage;
    WorkUpdate(h.writes, step.i, stage);
    assert Next(h, step).value.writes == h.writes[step.i := h.writes[step.i].(stage := stage)];
  }

  lemma {:induction false} AtMostSixEach(writes: seq<Write>)
    ensures Work(writes) <= 6 * |writes|
  {
    if writes != [] { AtMostSixEach(writes[..|writes| - 1]); }
  }

  /** However the steps of the queued writes succeed and fail, they are at most six a write. */
  lemma {:induction false} QueueStepsAreBounded(h: Host, steps: seq<Step>)
    requires Run(h, steps).Some? && forall k :: 0 <= k < |steps| ==> !steps[k].Set? && !steps[k].Crash?
    ensures |steps| + Work(Run(h, steps).value.writes) <= Work(h.writes) <= 6 * |h.writes|
    ensures |Run(h, steps).value.writes| == |h.writes|
  {
    AtMostSixEach(h.writes);
    if steps != [] {
      QueueStepsAreBounded(h, steps[..|steps| - 1]);
      StepUsesWork(Run(h, steps[..|steps| - 1]).value, steps[|steps| - 1]);
    }
  }

  /** And one of them is enabled, in any run, as long as some write is unsettled: a failure blocks
      nothing behind it. */
  lemma {:induction false} QueueIsNeverStuck(doc: Option<File>, temps: map<Uuid, File>, steps: seq<Step>, i: nat)
    requires Run(Open(doc, temps), steps).Some?
    requires i < |Run(Open(doc, temps), steps).value.writes| && !Settled(Run(Open(doc, temps), steps).value, i)
    ensures exists j: nat, next :: IsWriteStep(next, j) && Next(Run(Open(doc, temps), steps).value, next).Some?
  {
    var h := Run(Open(doc, temps), steps).value;
    RunKeepsInv(doc, temps, steps);
    NoWorkAllDone(h.writes);
    var j := FirstUnsettled(h);
    assert IsWriteStep(StepOf(h, j), j);
  }
}
