/** The target lease of crates/ost-build/src/lease.rs (Unix side), as a state machine.

    A *session* is one call of `TargetLease::acquire` together with the lease it returns; a
    *process* is one operating-system process and is never reused (its pid can be).  Every
    system call that another session can observe is one step, so sessions interleave between
    opening the file, locking it, reading the leftover record, truncating, writing, clearing
    and closing. */
module Lease {
  import opened Prelude

  type Session = nat
  type Process = nat
  type Inode = nat

  /** The identifying fields of `LeaseOwner`; the invocation id is unique to its session. */
  datatype Owner = Owner(invocation: Session, pid: nat, host: string)

  /** The lease file as `read_owner_from` sees it: blank, unparsable, or a record. */
  datatype Body = Blank | Torn | Record(owner: Owner)

  datatype StaleReason = OwnerExited | PidReused | ForeignHost

  datatype Takeover = Takeover(previous: Owner, reason: StaleReason)

  /** Where a session stands. `Trying` is the retry loop; from `Locked` to `Releasing` it owns the lock. */
  datatype Pc =
    | Trying
    | Opened(inode: Inode)
    | Locked(inode: Inode)
    | Judged(inode: Inode, takeover: Option<Takeover>)
    | Cleared(inode: Inode, takeover: Option<Takeover>)
    | Held(inode: Inode, takeover: Option<Takeover>)
    | Releasing(inode: Inode)
    | Done

  datatype SessionState = SessionState(process: Process, pc: Pc)

  /** A zombie has lost its locks but its pid still answers `kill(pid, 0)`. */
  datatype Status = Running | Zombie | Gone

  datatype ProcessState = ProcessState(pid: nat, machine: nat, host: string, status: Status)

  datatype Node = Node(holder: Option<Session>, body: Body)

  /** What the outside world can tell about the lease's history. */
  datatype Event =
    | Acquired(owner: Owner, takeover: Option<Takeover>)
    | Released                 // record cleared, then lock dropped
    | Dropped(owner: Owner)    // lock dropped, record left behind (a plain drop, or a release that could not clear)
    | Died(owner: Owner)       // killed while the record was in the file
    | Abandoned(owner: Owner)  // ended before it had the lease, with its whole record already in the file
    | Spoiled                  // ended after truncating, before a whole record was written
    | Untouched                // ended before touching the leftover record

  datatype State = State(
    path: Option<Inode>,
    nodes: map<Inode, Node>,
    sessions: map<Session, SessionState>,
    processes: map<Process, ProcessState>,
    log: seq<Event>)

  const Initial: State := State(None, map[], map[], map[], [])

  datatype Step =
    | Spawn(p: Process, pid: nat, machine: nat, host: string)
    | Begin(s: Session, p: Process)
    | Open(s: Session, unused: Inode)
    | Lock(s: Session)
    | Busy(s: Session, again: bool)
    | Judge(s: Session)
    | Clear(s: Session)
    | ClearFails(s: Session)
    | Tear(s: Session)
    | Ink(s: Session)
    | Write(s: Session)
    | WriteFails(s: Session)
    | ReleaseClear(s: Session)
    | ReleaseClose(s: Session)
    | Drop(s: Session)
    | Die(p: Process)
    | Reap(p: Process)

  predicate Holding(pc: Pc) {
    pc.Locked? || pc.Judged? || pc.Cleared? || pc.Held? || pc.Releasing?
  }

  predicate HasFile(pc: Pc) {
    pc.Opened? || Holding(pc)
  }

  predicate Live(st: State, s: Session) {
    s in st.sessions && st.sessions[s].process in st.processes
  }

  /** `process_is_live`: some process of this machine still answers to the pid. */
  predicate Answers(st: State, machine: nat, pid: nat) {
    exists p | p in st.processes ::
      st.processes[p].machine == machine && st.processes[p].pid == pid && !st.processes[p].status.Gone?
  }

  function OwnerOf(st: State, s: Session): Owner
    requires Live(st, s)
  {
    var p := st.processes[st.sessions[s].process];
    Owner(s, p.pid, p.host)
  }

  /** `classify_stale`, run by a process with the given host name on the given machine. */
  function ClassifyStale(st: State, previous: Owner, machine: nat, host: string): StaleReason {
    if previous.host != host then ForeignHost
    else if Answers(st, machine, previous.pid) then PidReused
    else OwnerExited
  }

  function Readable(body: Body): Option<Owner> {
    if body.Record? then Some(body.owner) else None
  }

  function PreviousOf(takeover: Option<Takeover>): Option<Owner> {
    if takeover.Some? then Some(takeover.value.previous) else None
  }

  function TakeoverFrom(st: State, body: Body, me: ProcessState): Option<Takeover> {
    if body.Record? then Some(Takeover(body.owner, ClassifyStale(st, body.owner, me.machine, me.host)))
    else None
  }

  predicate Enabled(st: State, step: Step) {
    match step
    case Spawn(p, pid, machine, host) => p !in st.processes && !Answers(st, machine, pid)
    case Begin(s, p) => s !in st.sessions && p in st.processes && st.processes[p].status.Running?
    case Die(p) => p in st.processes && st.processes[p].status.Running?
    case Reap(p) => p in st.processes && st.processes[p].status.Zombie?
    case Open(s, unused) => Live(st, s) && st.sessions[s].pc.Trying? && (st.path.None? ==> unused !in st.nodes)
    case Lock(s) => AtFile(st, s) && st.sessions[s].pc.Opened? && NodeOf(st, s).holder.None?
    case Busy(s, _) => AtFile(st, s) && st.sessions[s].pc.Opened? && NodeOf(st, s).holder.Some?
    case Judge(s) => AtFile(st, s) && st.sessions[s].pc.Locked?
    case Clear(s) => AtFile(st, s) && st.sessions[s].pc.Judged?
    case ClearFails(s) => AtFile(st, s) && st.sessions[s].pc.Judged?
    case Tear(s) => AtFile(st, s) && st.sessions[s].pc.Cleared? && !NodeOf(st, s).body.Record?
    case Ink(s) => AtFile(st, s) && st.sessions[s].pc.Cleared?
    case Write(s) => AtFile(st, s) && st.sessions[s].pc.Cleared?
    case WriteFails(s) => AtFile(st, s) && st.sessions[s].pc.Cleared?
    case ReleaseClear(s) => AtFile(st, s) && st.sessions[s].pc.Held?
    case ReleaseClose(s) => AtFile(st, s) && st.sessions[s].pc.Releasing?
    case Drop(s) => AtFile(st, s) && st.sessions[s].pc.Held?
  }

  predicate AtFile(st: State, s: Session) {
    Live(st, s) && HasFile(st.sessions[s].pc) && st.sessions[s].pc.inode in st.nodes
  }

  function NodeOf(st: State, s: Session): Node
    requires AtFile(st, s)
  {
    st.nodes[st.sessions[s].pc.inode]
  }

  function Move(st: State, s: Session, pc: Pc): State
    requires Live(st, s)
  {
    st.(sessions := st.sessions[s := st.sessions[s].(pc := pc)])
  }

  function PutNode(st: State, s: Session, node: Node): State
    requires AtFile(st, s)
  {
    st.(nodes := st.nodes[st.sessions[s].pc.inode := node])
  }

  function Note(st: State, e: Event): State {
    st.(log := st.log + [e])
  }

  /** How a session that owns the lock and is cut off leaves the file. */
  function CutOff(st: State, s: Session, body: Body): Event
    requires Live(st, s)
  {
    match st.sessions[s].pc
    case Held(_, _) => Died(OwnerOf(st, s))
    case Cleared(_, _) => Unwritten(st, s, body)
    case Releasing(_) => Released
    case _ => Untouched
  }

  /** How a session leaves the file that ends inside `write_owner`, after the truncation. */
  function Unwritten(st: State, s: Session, body: Body): Event
    requires Live(st, s)
  {
    if body.Record? then Abandoned(OwnerOf(st, s)) else Spoiled
  }

  /** `Drop` closes the file with the record still in it: a plain drop, and also a `release` whose truncation
      fails, since the code ignores that error.  `ClearFails` is `write_owner` failing in `set_len`, `WriteFails`
      any later part of it: `Tear` puts part of the record into the file and `Ink` all of it, after which the last
      newline or the `flush` can still fail. */
  function Apply(st: State, step: Step): State
    requires Enabled(st, step)
  {
    match step
    case Spawn(p, pid, machine, host) =>
      st.(processes := st.processes[p := ProcessState(pid, machine, host, Running)])
    case Begin(s, p) => st.(sessions := st.sessions[s := SessionState(p, Trying)])
    case Open(s, unused) =>
      if st.path.Some? then Move(st, s, Opened(st.path.value))
      else Move(st.(path := Some(unused), nodes := st.nodes[unused := Node(None, Blank)]), s, Opened(unused))
    case Lock(s) =>
      Move(PutNode(st, s, NodeOf(st, s).(holder := Some(s))), s, Locked(st.sessions[s].pc.inode))
    case Busy(s, again) => Move(st, s, if again then Trying else Done)
    case Judge(s) =>
      var me := st.processes[st.sessions[s].process];
      Move(st, s, Judged(st.sessions[s].pc.inode, TakeoverFrom(st, NodeOf(st, s).body, me)))
    case Clear(s) =>
      var pc := st.sessions[s].pc;
      Move(PutNode(st, s, NodeOf(st, s).(body := Blank)), s, Cleared(pc.inode, pc.takeover))
    case ClearFails(s) => Note(Move(PutNode(st, s, NodeOf(st, s).(holder := None)), s, Done), Untouched)
    case Tear(s) => PutNode(st, s, NodeOf(st, s).(body := Torn))
    case Ink(s) => PutNode(st, s, NodeOf(st, s).(body := Record(OwnerOf(st, s))))
    case Write(s) =>
      var pc := st.sessions[s].pc;
      Note(Move(PutNode(st, s, NodeOf(st, s).(body := Record(OwnerOf(st, s)))), s, Held(pc.inode, pc.takeover)),
           Acquired(OwnerOf(st, s), pc.takeover))
    case WriteFails(s) =>
      Note(Move(PutNode(st, s, NodeOf(st, s).(holder := None)), s, Done), Unwritten(st, s, NodeOf(st, s).body))
    case ReleaseClear(s) =>
      Move(PutNode(st, s, NodeOf(st, s).(body := Blank)), s, Releasing(st.sessions[s].pc.inode))
    case ReleaseClose(s) => Note(Move(PutNode(st, s, NodeOf(st, s).(holder := None)), s, Done), Released)
    case Drop(s) =>
      Note(Move(PutNode(st, s, NodeOf(st, s).(holder := None)), s, Done), Dropped(OwnerOf(st, s)))
    case Die(p) => Bury(st, p)
    case Reap(p) => st.(processes := st.processes[p := st.processes[p].(status := Gone)])
  }

  predicate Belongs(st: State, s: Session, p: Process) {
    s in st.sessions && st.sessions[s].process == p
  }

  /** The kernel closes every file of a dying process: all its sessions end and its lock is free. */
  function Bury(st: State, p: Process): State
    requires p in st.processes
  {
    State(
      st.path,
      map i | i in st.nodes ::
        if st.nodes[i].holder.Some? && Belongs(st, st.nodes[i].holder.value, p)
        then st.nodes[i].(holder := None) else st.nodes[i],
      map s | s in st.sessions ::
        if st.sessions[s].process == p then SessionState(p, Done) else st.sessions[s],
      st.processes[p := st.processes[p].(status := Zombie)],
      if st.path.Some? && st.path.value in st.nodes && st.nodes[st.path.value].holder.Some?
         && Belongs(st, st.nodes[st.path.value].holder.value, p)
      then st.log + [CutOff(st, st.nodes[st.path.value].holder.value, st.nodes[st.path.value].body)] else st.log)
  }

  // ---------------------------------------------------------------------------------------
  // Reference definitions over the history
  // ---------------------------------------------------------------------------------------

  /** The record the next session to lock the file must find, told from the history alone. */
  function Leftover(log: seq<Event>): Option<Owner> {
    if log == [] then None
    else
      match log[|log| - 1]
      case Acquired(owner, _) => Some(owner)
      case Dropped(owner) => Some(owner)
      case Died(owner) => Some(owner)
      case Abandoned(owner) => Some(owner)
      case Released => None
      case Spoiled => None
      case Untouched => Leftover(log[..|log| - 1])
  }

  /** The leftover record, if any, was left by a lease dropped without `release`, or by a session that never got
      the lease because the end of its write failed. */
  predicate LeftUncleared(log: seq<Event>) {
    if log == [] then false
    else if log[|log| - 1].Untouched? then LeftUncleared(log[..|log| - 1])
    else log[|log| - 1].Dropped? || log[|log| - 1].Abandoned?
  }

  /** Every takeover ever reported names exactly the leftover of the history before it. */
  ghost predicate HonestReports(log: seq<Event>) {
    forall k | 0 <= k < |log| && log[k].Acquired? :: PreviousOf(log[k].takeover) == Leftover(log[..k])
  }

  /** Leases never overlap: between two acquisitions the first one has ended. */
  predicate Alternating(log: seq<Event>) {
    forall k | 0 < k < |log| && log[k].Acquired? :: !log[k - 1].Acquired?
  }

  // ---------------------------------------------------------------------------------------
  // The invariant
  // ---------------------------------------------------------------------------------------

  /** One inode serves the path for good; a session that owns the lock is its holder and conversely. */
  predicate OneInode(st: State) {
    && (st.path.None? ==> st.nodes == map[])
    && (st.path.Some? ==> st.nodes.Keys == {st.path.value})
    && (forall s | s in st.sessions ::
          && Live(st, s)
          && (!st.sessions[s].pc.Done? ==> st.processes[st.sessions[s].process].status.Running?)
          && (HasFile(st.sessions[s].pc) ==> st.path == Some(st.sessions[s].pc.inode))
          && (Holding(st.sessions[s].pc) ==> Holder(st) == Some(s)))
    && (Holder(st).Some? ==> Holder(st).value in st.sessions && Holding(st.sessions[Holder(st).value].pc))
  }

  function Holder(st: State): Option<Session> {
    if st.path.Some? && st.path.value in st.nodes then st.nodes[st.path.value].holder else None
  }

  function Contents(st: State): Body {
    if st.path.Some? && st.path.value in st.nodes then st.nodes[st.path.value].body else Blank
  }

  /** The file's record agrees with the history, phase by phase of the session that owns the lock. */
  predicate FileMatchesLog(st: State)
    requires OneInode(st)
  {
    if Holder(st).None? then NotHeld(st.log) && Readable(Contents(st)) == Leftover(st.log)
    else
      var s := Holder(st).value;
      match st.sessions[s].pc
      case Locked(_) => NotHeld(st.log) && Readable(Contents(st)) == Leftover(st.log)
      case Judged(_, t) =>
        NotHeld(st.log) && Readable(Contents(st)) == Leftover(st.log) && PreviousOf(t) == Leftover(st.log)
      case Cleared(_, t) =>
        NotHeld(st.log) && PreviousOf(t) == Leftover(st.log)
        && (Contents(st).Record? ==> Contents(st) == Record(OwnerOf(st, s)))
      case Held(_, t) => Contents(st) == Record(OwnerOf(st, s)) && LastIs(st.log, Acquired(OwnerOf(st, s), t))
      case Releasing(_) => Contents(st).Blank? && |st.log| > 0 && st.log[|st.log| - 1].Acquired?
  }

  predicate NotHeld(log: seq<Event>) {
    |log| > 0 ==> !log[|log| - 1].Acquired?
  }

  predicate LastIs(log: seq<Event>, e: Event) {
    |log| > 0 && log[|log| - 1] == e
  }

  /** A recorded owner names a real session and its process's pid and host. */
  predicate Genuine(st: State, owner: Owner) {
    && Live(st, owner.invocation)
    && owner == OwnerOf(st, owner.invocation)
  }

  function OwnerProcess(st: State, owner: Owner): ProcessState
    requires Genuine(st, owner)
  {
    st.processes[st.sessions[owner.invocation].process]
  }

  predicate RecordsGenuine(st: State)
  {
    && (Leftover(st.log).Some? ==>
          && Genuine(st, Leftover(st.log).value)
          && (NotHeld(st.log) && OwnerProcess(st, Leftover(st.log).value).status.Running? ==> LeftUncleared(st.log)))
  }

  /** A takeover's verdict, as far as it is about this machine. */
  predicate VerdictSound(st: State, s: Session, t: Takeover) {
    && Live(st, s)
    && Genuine(st, t.previous)
    && (t.reason.OwnerExited? ==>
          OwnerProcess(st, t.previous).machine == st.processes[st.sessions[s].process].machine ==>
            OwnerProcess(st, t.previous).status.Gone?)
  }

  function TakeoverOf(pc: Pc): Option<Takeover> {
    if pc.Judged? || pc.Cleared? || pc.Held? then pc.takeover else None
  }

  predicate VerdictsSound(st: State) {
    forall s | s in st.sessions && TakeoverOf(st.sessions[s].pc).Some? ::
      VerdictSound(st, s, TakeoverOf(st.sessions[s].pc).value)
  }

  /** No two processes of a machine that have not been reaped share a pid. */
  predicate PidsDistinct(st: State) {
    forall p, q | p in st.processes && q in st.processes && !st.processes[p].status.Gone?
                  && !st.processes[q].status.Gone? && st.processes[p].machine == st.processes[q].machine
                  && st.processes[p].pid == st.processes[q].pid :: p == q
  }

  ghost predicate Inv(st: State) {
    && OneInode(st)
    && FileMatchesLog(st)
    && RecordsGenuine(st)
    && VerdictsSound(st)
    && HonestReports(st.log)
    && Alternating(st.log)
    && PidsDistinct(st)
  }

  /** `st'` differs from `st` only in session `s`, in the file it has open, and in the log. */
  predicate Touches(st: State, s: Session, st': State)
    requires AtFile(st, s)
  {
    && st'.path == st.path && st'.processes == st.processes
    && st'.sessions.Keys == st.sessions.Keys
    && st'.nodes.Keys == st.nodes.Keys
    && (forall i | i in st.nodes && i != st.sessions[s].pc.inode :: st'.nodes[i] == st.nodes[i])
    && (forall t | t in st.sessions && t != s :: st'.sessions[t] == st.sessions[t])
    && st'.sessions[s].process == st.sessions[s].process
  }

  /** Such a change keeps `OneInode` as long as the lock follows the session's phase. */
  lemma MoveKeepsOneInode(st: State, s: Session, st': State)
    requires OneInode(st) && AtFile(st, s) && Touches(st, s, st')
    requires NodeOf(st, s).holder == None || NodeOf(st, s).holder == Some(s)
    requires HasFile(st'.sessions[s].pc) ==> st'.sessions[s].pc.inode == st.sessions[s].pc.inode
    requires st'.nodes[st.sessions[s].pc.inode].holder == if Holding(st'.sessions[s].pc) then Some(s) else None
    ensures OneInode(st')
  {
  }

  /** The steps a session takes on the file it has open (all but the retry). */
  predicate OnFile(step: Step) {
    step.Lock? || step.Judge? || step.Clear? || step.ClearFails? || step.Tear? || step.Ink? || step.Write? || step.WriteFails?
    || step.ReleaseClear? || step.ReleaseClose? || step.Drop?
  }

  lemma FileStepTouches(st: State, step: Step)
    requires OneInode(st) && Enabled(st, step) && OnFile(step)
    ensures var st', s := Apply(st, step), step.s;
      && Touches(st, s, st')
      && (NodeOf(st, s).holder == None || NodeOf(st, s).holder == Some(s))
      && (HasFile(st'.sessions[s].pc) ==> st'.sessions[s].pc.inode == st.sessions[s].pc.inode)
      && st'.nodes[st.sessions[s].pc.inode].holder == if Holding(st'.sessions[s].pc) then Some(s) else None
  {
    OwnFile(st, step);
    hide OneInode;
  }

  /** The file a session has open is free, or locked by that session. */
  lemma OwnFile(st: State, step: Step)
    requires OneInode(st) && Enabled(st, step) && OnFile(step)
    ensures NodeOf(st, step.s).holder == if step.Lock? then None else Some(step.s)
  {
  }

  lemma StepKeepsOneInode(st: State, step: Step)
    requires OneInode(st) && Enabled(st, step)
    ensures OneInode(Apply(st, step))
  {
    if OnFile(step) {
      hide OneInode;
      FileStepTouches(st, step);
      MoveKeepsOneInode(st, step.s, Apply(st, step));
    } else if step.Die? {
      hide OneInode;
      BuryKeepsOneInode(st, step.p);
    } else {
      QuietStepKeepsOneInode(st, step);
    }
  }

  lemma QuietStepKeepsOneInode(st: State, step: Step)
    requires OneInode(st) && Enabled(st, step) && !OnFile(step) && !step.Die?
    ensures OneInode(Apply(st, step))
  {
  }

  lemma BuryKeepsOneInode(st: State, p: Process)
    requires OneInode(st) && p in st.processes
    ensures OneInode(Bury(st, p))
  {
  }

  /** Steps of the environment, or of a session that does not own the lock: the file and history stand still. */
  lemma OutsideStepFrames(st: State, step: Step)
    requires OneInode(st) && Enabled(st, step) && !OnFile(step) && !step.Die?
    ensures var st' := Apply(st, step);
      && Holder(st') == Holder(st) && Contents(st') == Contents(st) && st'.log == st.log
      && (forall s | s in st.sessions && Holding(st.sessions[s].pc) ::
            && s in st'.sessions && st'.sessions[s] == st.sessions[s]
            && Live(st, s) && Live(st', s) && OwnerOf(st', s) == OwnerOf(st, s))
  {
  }

  lemma StepKeepsFile(st: State, step: Step)
    requires OneInode(st) && FileMatchesLog(st) && Enabled(st, step) && OneInode(Apply(st, step))
    ensures FileMatchesLog(Apply(st, step))
  {
    if OnFile(step) {
      FileStepKeepsFile(st, step);
    } else if step.Die? {
      BuryKeepsFile(st, step.p);
    } else {
      OutsideStepFrames(st, step);
    }
  }

  lemma FileStepKeepsFile(st: State, step: Step)
    requires OneInode(st) && FileMatchesLog(st) && Enabled(st, step) && OnFile(step) && OneInode(Apply(st, step))
    ensures FileMatchesLog(Apply(st, step))
  {
  }

  lemma BuryKeepsFile(st: State, p: Process)
    requires OneInode(st) && FileMatchesLog(st) && p in st.processes && OneInode(Bury(st, p))
    ensures FileMatchesLog(Bury(st, p))
  {
    var st' := Bury(st, p);
    if st'.log != st.log {
      assert st'.log[..|st'.log| - 1] == st.log;
    }
  }

  /** Processes only grow older: they keep pid, machine and host, and never come back from the dead. */
  predicate Ages(st: State, st': State) {
    && (forall p | p in st.processes ::
          && p in st'.processes
          && st'.processes[p].pid == st.processes[p].pid
          && st'.processes[p].machine == st.processes[p].machine
          && st'.processes[p].host == st.processes[p].host
          && (st.processes[p].status.Gone? ==> st'.processes[p].status.Gone?)
          && (st'.processes[p].status.Running? ==> st.processes[p].status.Running?))
    && (forall s | s in st.sessions :: s in st'.sessions && st'.sessions[s].process == st.sessions[s].process)
  }

  lemma StepAges(st: State, step: Step)
    requires Enabled(st, step)
    ensures Ages(st, Apply(st, step))
  {
  }

  /** An event behind the given log that names an owner names a real one, and a dead one if the owner died. */
  predicate EventGenuine(st: State, log: seq<Event>, e: Event) {
    match e
    case Acquired(owner, _) => Genuine(st, owner)
    case Dropped(owner) => Genuine(st, owner)
    case Abandoned(owner) => Genuine(st, owner)
    case Died(owner) => Genuine(st, owner) && !OwnerProcess(st, owner).status.Running?
    case Untouched => NotHeld(log)
    case _ => true
  }

  lemma StepKeepsGenuine(st: State, step: Step)
    requires OneInode(st) && FileMatchesLog(st) && RecordsGenuine(st) && Enabled(st, step) && OneInode(Apply(st, step))
    ensures RecordsGenuine(Apply(st, step))
  {
    hide *;
    StepAges(st, step);
    var e := StepLogs(st, step);
    if e.Some? {
      NewEventGenuine(st, step);
    }
    GenuineGrows(st, Apply(st, step), e);
  }

  lemma GenuineGrows(st: State, st': State, e: Option<Event>)
    requires RecordsGenuine(st) && Ages(st, st') && st'.log == if e.Some? then st.log + [e.value] else st.log
    requires e.Some? ==> EventGenuine(st', st.log, e.value)
    ensures RecordsGenuine(st')
  {
    if e.Some? {
      assert st'.log[..|st'.log| - 1] == st.log;
    }
  }

  lemma NewEventGenuine(st: State, step: Step)
    requires OneInode(st) && FileMatchesLog(st) && Enabled(st, step) && Apply(st, step).log != st.log
    ensures
      var st' := Apply(st, step);
      |st'.log| == |st.log| + 1 && EventGenuine(st', st.log, st'.log[|st.log|])
  {
    if step.Die? {
      DeathGenuine(st, step.p);
    } else {
      assert OnFile(step);
      FileStepTouches(st, step);
    }
  }

  lemma DeathGenuine(st: State, p: Process)
    requires OneInode(st) && FileMatchesLog(st) && p in st.processes && Bury(st, p).log != st.log
    ensures
      var st' := Bury(st, p);
      |st'.log| == |st.log| + 1 && EventGenuine(st', st.log, st'.log[|st.log|])
  {
  }

  lemma StepKeepsVerdicts(st: State, step: Step)
    requires OneInode(st) && FileMatchesLog(st) && RecordsGenuine(st) && VerdictsSound(st) && Enabled(st, step) && OneInode(Apply(st, step))
    ensures VerdictsSound(Apply(st, step))
  {
    var st' := Apply(st, step);
    hide Apply, Enabled, OneInode, FileMatchesLog, RecordsGenuine, Ages, VerdictSound;
    StepAges(st, step);
    forall s | s in st'.sessions && TakeoverOf(st'.sessions[s].pc).Some?
      ensures VerdictSound(st', s, TakeoverOf(st'.sessions[s].pc).value)
    {
      if step == Judge(s) {
        JudgementSound(st, s);
      } else {
        TakeoverKept(st, step, s);
        VerdictKept(st, st', s, TakeoverOf(st.sessions[s].pc).value);
      }
    }
  }

  lemma VerdictKept(st: State, st': State, s: Session, t: Takeover)
    requires VerdictSound(st, s, t) && Ages(st, st')
    ensures VerdictSound(st', s, t)
  {
  }

  lemma JudgementSound(st: State, s: Session)
    requires OneInode(st) && FileMatchesLog(st) && RecordsGenuine(st) && Enabled(st, Judge(s))
    ensures var st' := Apply(st, Judge(s));
      TakeoverOf(st'.sessions[s].pc).Some? ==> VerdictSound(st', s, TakeoverOf(st'.sessions[s].pc).value)
  {
  }

  lemma TakeoverKept(st: State, step: Step, s: Session)
    requires Enabled(st, step) && step != Judge(s)
    requires s in Apply(st, step).sessions && TakeoverOf(Apply(st, step).sessions[s].pc).Some?
    ensures s in st.sessions && TakeoverOf(st.sessions[s].pc) == TakeoverOf(Apply(st, step).sessions[s].pc)
  {
  }

  /** A step adds at most one event, and an acquisition only after the last lease ended, naming what that left. */
  lemma StepLogs(st: State, step: Step) returns (e: Option<Event>)
    requires OneInode(st) && FileMatchesLog(st) && Enabled(st, step)
    ensures Apply(st, step).log == if e.Some? then st.log + [e.value] else st.log
    ensures e.Some? && e.value.Acquired? ==> NotHeld(st.log) && PreviousOf(e.value.takeover) == Leftover(st.log)
  {
    var log' := Apply(st, step).log;
    e := if log' == st.log then None else Some(log'[|log'| - 1]);
  }

  lemma LogGrows(log: seq<Event>, e: Event)
    requires HonestReports(log) && Alternating(log)
    requires e.Acquired? ==> NotHeld(log) && PreviousOf(e.takeover) == Leftover(log)
    ensures HonestReports(log + [e]) && Alternating(log + [e])
  {
    var log' := log + [e];
    assert log'[..|log|] == log;
    forall k | 0 <= k < |log| ensures log'[..k] == log[..k] {
    }
  }

  lemma StepKeepsLog(st: State, step: Step)
    requires OneInode(st) && FileMatchesLog(st) && HonestReports(st.log) && Alternating(st.log) && Enabled(st, step)
    ensures HonestReports(Apply(st, step).log) && Alternating(Apply(st, step).log)
  {
    var e := StepLogs(st, step);
    hide Apply, Enabled, OneInode, FileMatchesLog, HonestReports, Alternating;
    if e.Some? {
      LogGrows(st.log, e.value);
    }
  }

  lemma StepKeepsPids(st: State, step: Step)
    requires PidsDistinct(st) && Enabled(st, step)
    ensures PidsDistinct(Apply(st, step))
  {
  }

  lemma StepKeepsInv(st: State, step: Step)
    requires Inv(st) && Enabled(st, step)
    ensures Inv(Apply(st, step))
  {
    StepKeepsOneInode(st, step);
    StepKeepsFile(st, step);
    StepKeepsGenuine(st, step);
    StepKeepsVerdicts(st, step);
    StepKeepsLog(st, step);
    StepKeepsPids(st, step);
  }

  // ---------------------------------------------------------------------------------------
  // Whole runs
  // ---------------------------------------------------------------------------------------

  /** An interleaving, from a directory without a lease file, of any number of processes. */
  ghost predicate IsRun(states: seq<State>, steps: seq<Step>) {
    && |states| == |steps| + 1
    && states[0] == Initial
    && forall k | 0 <= k < |steps| :: Enabled(states[k], steps[k]) && states[k + 1] == Apply(states[k], steps[k])
  }

  lemma {:induction false} RunKeepsInv(states: seq<State>, steps: seq<Step>, k: nat)
    requires IsRun(states, steps) && k < |states|
    ensures Inv(states[k])
  {
    if k > 0 {
      RunKeepsInv(states, steps, k - 1);
      StepKeepsInv(states[k - 1], steps[k - 1]);
    }
  }

  /** At most one session owns the lock, hence at most one holds the lease, in every reachable state. */
  lemma MutualExclusion(states: seq<State>, steps: seq<Step>, k: nat, a: Session, b: Session)
    requires IsRun(states, steps) && k < |states|
    requires a in states[k].sessions && Holding(states[k].sessions[a].pc)
    requires b in states[k].sessions && Holding(states[k].sessions[b].pc)
    ensures a == b
  {
    RunKeepsInv(states, steps, k);
  }

  /** The inode behind the path never changes once the file exists.  No step removes or replaces the file, so this
      holds by the choice of steps; `UnlinkBreaksExclusion` shows what would be lost without it. */
  lemma {:induction false} InodeNeverChanges(states: seq<State>, steps: seq<Step>, j: nat, k: nat)
    requires IsRun(states, steps) && j <= k < |states| && states[j].path.Some?
    ensures states[k].path == states[j].path
  {
    if j < k {
      InodeNeverChanges(states, steps, j, k - 1);
    }
  }

  /** The steps that end session `s`'s lease. */
  predicate Ends(st: State, s: Session, step: Step) {
    step == ReleaseClear(s) || step == Drop(s) || (step.Die? && Belongs(st, s, step.p))
  }

  /** From its write on, a holder's record stays in the file until it releases, drops or dies. */
  lemma {:induction false} RecordStays(states: seq<State>, steps: seq<Step>, j: nat, k: nat, s: Session)
    requires IsRun(states, steps) && j <= k < |states|
    requires s in states[j].sessions && states[j].sessions[s].pc.Held?
    requires forall i | j <= i < k :: !Ends(states[i], s, steps[i])
    ensures s in states[k].sessions && states[k].sessions[s] == states[j].sessions[s]
    ensures Live(states[k], s) && Contents(states[k]) == Record(OwnerOf(states[k], s))
  {
    if j < k {
      RecordStays(states, steps, j, k - 1, s);
      RunHeldStays(states, steps, k - 1, s);
    }
    RunHeldRecord(states, steps, k, s);
  }

  lemma RunHeldRecord(states: seq<State>, steps: seq<Step>, k: nat, s: Session)
    requires IsRun(states, steps) && k < |states| && s in states[k].sessions && states[k].sessions[s].pc.Held?
    ensures Live(states[k], s) && Contents(states[k]) == Record(OwnerOf(states[k], s))
  {
    RunKeepsInv(states, steps, k);
  }

  lemma RunHeldStays(states: seq<State>, steps: seq<Step>, k: nat, s: Session)
    requires IsRun(states, steps) && k < |steps| && s in states[k].sessions && states[k].sessions[s].pc.Held?
    requires !Ends(states[k], s, steps[k])
    ensures s in states[k + 1].sessions && states[k + 1].sessions[s] == states[k].sessions[s]
  {
    RunKeepsInv(states, steps, k);
    HeldStays(states[k], steps[k], s);
  }

  lemma HeldStays(st: State, step: Step, s: Session)
    requires OneInode(st) && Enabled(st, step) && s in st.sessions && st.sessions[s].pc.Held? && !Ends(st, s, step)
    ensures s in Apply(st, step).sessions && Apply(st, step).sessions[s] == st.sessions[s]
  {
    if OnFile(step) {
      FileStepTouches(st, step);
      assert step.s != s;
      hide Apply, OneInode;
    }
  }

  /** No one is past the point of reading the leftover record. */
  predicate Quiet(st: State) {
    Holder(st).Some? ==>
      Holder(st).value in st.sessions &&
      (st.sessions[Holder(st).value].pc.Locked? || st.sessions[Holder(st).value].pc.Judged?)
  }

  lemma QuietStep(st: State, step: Step)
    requires OneInode(st) && FileMatchesLog(st) && Enabled(st, step) && Quiet(st) && !step.Clear?
    ensures Quiet(Apply(st, step)) && Leftover(Apply(st, step).log) == Leftover(st.log)
  {
    var st' := Apply(st, step);
    if OnFile(step) || step.Die? {
      if st'.log != st.log {
        assert st'.log[..|st'.log| - 1] == st.log;
      }
    } else {
      OutsideStepFrames(st, step);
    }
  }

  lemma {:induction false} LeftoverPersists(states: seq<State>, steps: seq<Step>, j: nat, k: nat)
    requires IsRun(states, steps) && j <= k < |states| && Quiet(states[j])
    requires forall i | j <= i < k :: !steps[i].Clear?
    ensures Quiet(states[k]) && Leftover(states[k].log) == Leftover(states[j].log)
  {
    if j < k {
      LeftoverPersists(states, steps, j, k - 1);
      RunKeepsInv(states, steps, k - 1);
      QuietStep(states[k - 1], steps[k - 1]);
    }
  }

  /** What the session judging at step `m` reports. */
  function Reported(states: seq<State>, steps: seq<Step>, m: nat): Option<Takeover>
    requires m < |steps| && m + 1 < |states| && steps[m].Judge?
    requires steps[m].s in states[m + 1].sessions && states[m + 1].sessions[steps[m].s].pc.Judged?
  {
    states[m + 1].sessions[steps[m].s].pc.takeover
  }

  lemma JudgeReportsLeftover(states: seq<State>, steps: seq<Step>, m: nat)
    requires IsRun(states, steps) && m < |steps| && steps[m].Judge?
    ensures steps[m].s in states[m + 1].sessions && states[m + 1].sessions[steps[m].s].pc.Judged?
    ensures PreviousOf(Reported(states, steps, m)) == Leftover(states[m].log)
  {
    RunKeepsInv(states, steps, m);
  }

  /** What the end of a lease leaves: nothing after a clean release, the record after a holder's death. */
  lemma LastStepTold(st: State, step: Step)
    requires OneInode(st) && FileMatchesLog(st) && Enabled(st, step)
    ensures step.ReleaseClose? ==> Quiet(Apply(st, step)) && Leftover(Apply(st, step).log).None?
    ensures forall s | s in st.sessions && st.sessions[s].pc.Held? && step == Die(st.sessions[s].process) ::
      Live(st, s) && Quiet(Apply(st, step)) && Leftover(Apply(st, step).log) == Some(OwnerOf(st, s))
  {
  }

  /** After a clean release, the next session to read the file finds nothing to take over. */
  lemma CleanReleaseLeavesNothing(states: seq<State>, steps: seq<Step>, k: nat, m: nat)
    requires IsRun(states, steps) && k < m < |steps|
    requires steps[k].ReleaseClose? && steps[m].Judge?
    requires forall i | k < i < m :: !steps[i].Clear?
    ensures steps[m].s in states[m + 1].sessions && states[m + 1].sessions[steps[m].s].pc.Judged?
    ensures Reported(states, steps, m) == None
  {
    RunKeepsInv(states, steps, k);
    LastStepTold(states[k], steps[k]);
    hide Apply, Enabled, Inv;
    LeftoverPersists(states, steps, k + 1, m);
    JudgeReportsLeftover(states, steps, m);
  }

  /** If a holder's process dies after the write, the next session to read reports exactly that invocation. */
  lemma CrashIsReported(states: seq<State>, steps: seq<Step>, k: nat, m: nat, s: Session)
    requires IsRun(states, steps) && k < m < |steps|
    requires s in states[k].sessions && states[k].sessions[s].pc.Held?
    requires steps[k] == Die(states[k].sessions[s].process) && steps[m].Judge?
    requires forall i | k < i < m :: !steps[i].Clear?
    ensures steps[m].s in states[m + 1].sessions && states[m + 1].sessions[steps[m].s].pc.Judged?
    ensures Live(states[k], s)
    ensures PreviousOf(Reported(states, steps, m)) == Some(OwnerOf(states[k], s))
  {
    RunKeepsInv(states, steps, k);
    LastStepTold(states[k], steps[k]);
    hide Apply, Enabled, Inv;
    LeftoverPersists(states, steps, k + 1, m);
    JudgeReportsLeftover(states, steps, m);
  }

  /** A session that has not come to its lease yet. */
  predicate Early(st: State, s: Session) {
    s in st.sessions ==>
      var pc := st.sessions[s].pc;
      pc.Trying? || pc.Opened? || pc.Locked? || pc.Judged? || pc.Cleared?
  }

  predicate NeverAcquired(log: seq<Event>, s: Session) {
    forall e | e in log && e.Acquired? :: e.owner.invocation != s
  }

  lemma EarlyStep(st: State, step: Step, s: Session)
    requires OneInode(st) && FileMatchesLog(st) && Enabled(st, step) && Early(Apply(st, step), s)
    ensures Early(st, s)
    ensures NeverAcquired(st.log, s) ==> NeverAcquired(Apply(st, step).log, s)
  {
    EarlyBefore(st, step, s);
    var e := StepLogs(st, step);
    if e.Some? && e.value.Acquired? {
      AcquiredBySelf(st, step, e.value);
    }
    hide Apply, Enabled, OneInode, FileMatchesLog, Early;
  }

  lemma EarlyBefore(st: State, step: Step, s: Session)
    requires Enabled(st, step) && Early(Apply(st, step), s)
    ensures Early(st, s)
  {
  }

  lemma AcquiredBySelf(st: State, step: Step, e: Event)
    requires OneInode(st) && Enabled(st, step) && Apply(st, step).log == st.log + [e] && e.Acquired?
    ensures !Early(Apply(st, step), e.owner.invocation)
  {
    assert Apply(st, step).log[|st.log|] == e;
  }

  lemma {:induction false} EarlyHasNoLease(states: seq<State>, steps: seq<Step>, k: nat, s: Session)
    requires IsRun(states, steps) && k < |states| && Early(states[k], s)
    ensures NeverAcquired(states[k].log, s)
  {
    if k > 0 {
      RunKeepsInv(states, steps, k - 1);
      EarlyStep(states[k - 1], steps[k - 1], s);
      EarlyHasNoLease(states, steps, k - 1, s);
    }
  }

  lemma AbandonedTold(st: State, step: Step, s: Session)
    requires OneInode(st) && FileMatchesLog(st) && Enabled(st, step)
    requires s in st.sessions && st.sessions[s].pc.Cleared? && Contents(st).Record?
    requires step == WriteFails(s) || step == Die(st.sessions[s].process)
    ensures Live(st, s) && Quiet(Apply(st, step)) && Leftover(Apply(st, step).log) == Some(OwnerOf(st, s))
  {
  }

  /** If `write_owner` fails, or its process dies, with the whole record already in the file, the next session to
      read reports a previous owner that never had the lease. */
  lemma FailedWriteIsReported(states: seq<State>, steps: seq<Step>, k: nat, m: nat, s: Session)
    requires IsRun(states, steps) && k < m < |steps|
    requires s in states[k].sessions && states[k].sessions[s].pc.Cleared? && Contents(states[k]).Record?
    requires steps[k] == WriteFails(s) || steps[k] == Die(states[k].sessions[s].process)
    requires steps[m].Judge? && forall i | k < i < m :: !steps[i].Clear?
    ensures steps[m].s in states[m + 1].sessions && states[m + 1].sessions[steps[m].s].pc.Judged?
    ensures Live(states[k], s) && PreviousOf(Reported(states, steps, m)) == Some(OwnerOf(states[k], s))
    ensures NeverAcquired(states[k].log, s)
  {
    RunKeepsInv(states, steps, k);
    AbandonedTold(states[k], steps[k], s);
    EarlyHasNoLease(states, steps, k, s);
    hide Apply, Enabled, Inv;
    LeftoverPersists(states, steps, k + 1, m);
    JudgeReportsLeftover(states, steps, m);
  }

  /** `OwnerExited` is never said of a process that still runs on the judging machine, now or later. */
  lemma OwnerExitedIsTrue(states: seq<State>, steps: seq<Step>, k: nat, s: Session)
    requires IsRun(states, steps) && k < |states| && s in states[k].sessions
    requires TakeoverOf(states[k].sessions[s].pc).Some?
    requires TakeoverOf(states[k].sessions[s].pc).value.reason.OwnerExited?
    ensures
      var previous := TakeoverOf(states[k].sessions[s].pc).value.previous;
      && Live(states[k], s) && Genuine(states[k], previous)
      && (OwnerProcess(states[k], previous).machine == states[k].processes[states[k].sessions[s].process].machine ==>
            OwnerProcess(states[k], previous).status.Gone?)
  {
    RunKeepsInv(states, steps, k);
    assert VerdictSound(states[k], s, TakeoverOf(states[k].sessions[s].pc).value);
  }

  /** A process other than the recorded owner answers to the recorded pid: the pid was recycled. */
  predicate Recycled(st: State, owner: Owner, machine: nat)
    requires Genuine(st, owner)
  {
    exists q | q in st.processes ::
      && q != st.sessions[owner.invocation].process
      && st.processes[q].machine == machine && st.processes[q].pid == owner.pid && !st.processes[q].status.Gone?
  }

  /** The owner itself still answers to its pid on the judging machine: it runs, or it died unreaped. */
  predicate OwnerAnswers(st: State, owner: Owner, machine: nat)
    requires Genuine(st, owner)
  {
    OwnerProcess(st, owner).machine == machine && !OwnerProcess(st, owner).status.Gone?
  }

  /** The two never come together: pids of unreaped processes are distinct. */
  lemma AnswersExactly(st: State, owner: Owner, machine: nat)
    requires PidsDistinct(st) && Genuine(st, owner)
    ensures Answers(st, machine, owner.pid) <==> OwnerAnswers(st, owner, machine) || Recycled(st, owner, machine)
    ensures !(OwnerAnswers(st, owner, machine) && Recycled(st, owner, machine))
  {
    var p := st.sessions[owner.invocation].process;
    if OwnerAnswers(st, owner, machine) {
      assert st.processes[p].pid == owner.pid;
    }
  }

  /** `classify_stale` promises of a leftover record of this host that a pid that answers was recycled.  In every
      run and for every judging session: `PidReused` is said although the pid was not recycled if and only if the
      recorded owner itself still answers, running or unreaped, on the judging machine; and a running owner means
      that it dropped its lease without clearing the record, or never got it because the end of its write failed. */
  lemma PidReusedExactly(states: seq<State>, steps: seq<Step>, m: nat, previous: Owner)
    requires IsRun(states, steps) && m < |steps| && steps[m].Judge?
    requires Leftover(states[m].log) == Some(previous)
    ensures Live(states[m], steps[m].s) && Genuine(states[m], previous)
    ensures steps[m].s in states[m + 1].sessions && states[m + 1].sessions[steps[m].s].pc.Judged?
    ensures
      var st := states[m];
      var me := st.processes[st.sessions[steps[m].s].process];
      var report := Reported(states, steps, m);
      && report.Some? && report.value.previous == previous
      && (report.value.reason.ForeignHost? <==> previous.host != me.host)
      && (previous.host == me.host ==>
            && ((report.value.reason.PidReused? && !Recycled(st, previous, me.machine)) <==>
                OwnerAnswers(st, previous, me.machine))
            && (report.value.reason.OwnerExited? <==>
                (!OwnerAnswers(st, previous, me.machine) && !Recycled(st, previous, me.machine))))
      && (OwnerProcess(st, previous).status.Running? ==> LeftUncleared(st.log))
  {
    RunKeepsInv(states, steps, m);
    JudgeReportsLeftover(states, steps, m);
    var st := states[m];
    AnswersExactly(st, previous, st.processes[st.sessions[steps[m].s].process].machine);
  }

  /** Every takeover ever reported by a successful acquisition, in every reachable history, names exactly
      the record the history before it left behind; and no two leases overlap. */
  lemma HistoryIsHonest(states: seq<State>, steps: seq<Step>, k: nat)
    requires IsRun(states, steps) && k < |states|
    ensures HonestReports(states[k].log) && Alternating(states[k].log)
  {
    RunKeepsInv(states, steps, k);
  }

  /** A state with one process, the given sessions, and the lease file (inode 0) as given. */
  function Small(node: Node, sessions: map<Session, SessionState>, log: seq<Event>): State {
    State(Some(0), map[0 := node], sessions, map[0 := ProcessState(7, 0, "h", Running)], log)
  }

  const SMALL_OWNER: Owner := Owner(0, 7, "h")

  lemma TakeTheLock() returns (states: seq<State>, steps: seq<Step>)
    ensures IsRun(states, steps) && steps == [Spawn(0, 7, 0, "h"), Begin(0, 0), Open(0, 0), Lock(0)]
    ensures states[4] == Small(Node(Some(0), Blank), map[0 := SessionState(0, Locked(0))], [])
  {
    var s1 := Initial.(processes := map[0 := ProcessState(7, 0, "h", Running)]);
    var s2 := s1.(sessions := map[0 := SessionState(0, Trying)]);
    var s3 := Small(Node(None, Blank), map[0 := SessionState(0, Opened(0))], []);
    var s4 := Small(Node(Some(0), Blank), map[0 := SessionState(0, Locked(0))], []);
    states := [Initial, s1, s2, s3, s4];
    steps := [Spawn(0, 7, 0, "h"), Begin(0, 0), Open(0, 0), Lock(0)];
  }

  /** The state in which that session holds the lease. */
  const HELD: State :=
    Small(Node(Some(0), Record(SMALL_OWNER)), map[0 := SessionState(0, Held(0, None))], [Acquired(SMALL_OWNER, None)])

  lemma TakeTheLease() returns (states: seq<State>, steps: seq<Step>)
    ensures IsRun(states, steps)
    ensures steps == [Spawn(0, 7, 0, "h"), Begin(0, 0), Open(0, 0), Lock(0), Judge(0), Clear(0), Write(0)]
    ensures states[7] == HELD
  {
    states, steps := TakeTheLock();
    ClearStep(states[4]);
    WriteStep(Apply(Apply(states[4], Judge(0)), Clear(0)));
    hide Apply, Enabled;
    states, steps := Extend(states, steps, Judge(0));
    states, steps := Extend(states, steps, Clear(0));
    states, steps := Extend(states, steps, Write(0));
  }

  lemma ClearStep(s: State)
    requires s == Small(Node(Some(0), Blank), map[0 := SessionState(0, Locked(0))], [])
    ensures Enabled(s, Judge(0)) && var s1 := Apply(s, Judge(0));
      Enabled(s1, Clear(0)) &&
      Apply(s1, Clear(0)) == Small(Node(Some(0), Blank), map[0 := SessionState(0, Cleared(0, None))], [])
  {
  }

  lemma WriteStep(s: State)
    requires s == Small(Node(Some(0), Blank), map[0 := SessionState(0, Cleared(0, None))], [])
    ensures Enabled(s, Write(0)) && Apply(s, Write(0)) == HELD
  {
  }

  lemma Extend(run: seq<State>, path: seq<Step>, step: Step) returns (states: seq<State>, steps: seq<Step>)
    requires IsRun(run, path) && Enabled(run[|path|], step)
    ensures IsRun(states, steps) && steps == path + [step]
    ensures states == run + [Apply(run[|path|], step)]
  {
    states, steps := run + [Apply(run[|path|], step)], path + [step];
  }

  /** The session of process `p` that next opens the free lease file, locks it and judges. */
  lemma JudgeNext(run: seq<State>, path: seq<Step>, p: Process) returns (states: seq<State>, steps: seq<Step>)
    requires IsRun(run, path)
    requires var st := run[|path|];
      && st.path == Some(0) && st.nodes == map[0 := Node(None, Record(SMALL_OWNER))] && 1 !in st.sessions
      && p in st.processes && st.processes[p].status.Running? && st.processes[p].host == "h"
      && Answers(st, st.processes[p].machine, 7)
    ensures IsRun(states, steps) && steps == path + [Begin(1, p), Open(1, 0), Lock(1), Judge(1)]
    ensures var end := states[|steps|];
      1 in end.sessions && TakeoverOf(end.sessions[1].pc) == Some(Takeover(SMALL_OWNER, PidReused))
    ensures var st, before := run[|path|], states[|path| + 3];
      && before.processes == st.processes
      && (forall s | s in st.sessions :: s in before.sessions && before.sessions[s] == st.sessions[s])
  {
    var st := run[|path|];
    states, steps := Extend(run, path, Begin(1, p));
    states, steps := Extend(states, steps, Open(1, 0));
    states, steps := Extend(states, steps, Lock(1));
    assert states[|steps|].processes == st.processes;
    states, steps := Extend(states, steps, Judge(1));
  }

  /** One process takes the lease and drops it without `release` (an error path), then takes it again: the
      verdict is `PidReused` although no process ever ended, so no pid was recycled. */
  lemma DroppedOwnerIsMisjudged() returns (states: seq<State>, steps: seq<Step>)
    ensures IsRun(states, steps) && |steps| == 12 && forall k | 0 <= k < 12 :: !steps[k].Die?
    ensures 1 in states[12].sessions
    ensures TakeoverOf(states[12].sessions[1].pc) == Some(Takeover(SMALL_OWNER, PidReused))
  {
    states, steps := TakeTheLease();
    states, steps := Extend(states, steps, Drop(0));
    assert states[8].processes[0].pid == 7;
    states, steps := JudgeNext(states, steps, 0);
  }

  lemma KillHolder()
    ensures Enabled(HELD, Die(0)) && var dead := Apply(HELD, Die(0));
      Enabled(dead, Spawn(1, 8, 0, "h")) && var next := Apply(dead, Spawn(1, 8, 0, "h"));
      && next.path == Some(0) && next.nodes == map[0 := Node(None, Record(SMALL_OWNER))]
      && next.sessions == map[0 := SessionState(0, Done)]
      && next.processes == map[0 := ProcessState(7, 0, "h", Zombie), 1 := ProcessState(8, 0, "h", Running)]
  {
    assert Apply(HELD, Die(0)).processes == map[0 := ProcessState(7, 0, "h", Zombie)];
  }

  /** A holder is killed and not yet reaped when another process takes over: the verdict is `PidReused` although
      nothing was dropped and every pid was given out once. */
  lemma UnreapedOwnerIsMisjudged() returns (states: seq<State>, steps: seq<Step>)
    ensures IsRun(states, steps) && |steps| == 13
    ensures forall k | 0 <= k < 13 :: !steps[k].Drop? && !steps[k].Reap?
    ensures 1 in states[13].sessions
    ensures TakeoverOf(states[13].sessions[1].pc) == Some(Takeover(SMALL_OWNER, PidReused))
    ensures Genuine(states[12], SMALL_OWNER) && !Recycled(states[12], SMALL_OWNER, 0)
  {
    states, steps := TakeTheLease();
    KillHolder();
    hide Apply, Enabled;
    states, steps := Extend(states, steps, Die(0));
    states, steps := Extend(states, steps, Spawn(1, 8, 0, "h"));
    assert states[9].processes[0].pid == 7;
    states, steps := JudgeNext(states, steps, 1);
  }

  // ---------------------------------------------------------------------------------------
  // Why the file is never unlinked
  // ---------------------------------------------------------------------------------------

  /** Removing the lease file: the path is free, whoever has the inode open keeps it. */
  function Unlink(st: State): State {
    st.(path := None)
  }

  /** In every reachable state in which someone owns the lock, removing the file would let any session that is
      still trying take a second lock at once. */
  lemma UnlinkBreaksExclusion(states: seq<State>, steps: seq<Step>, k: nat, a: Session, b: Session, unused: Inode)
    requires IsRun(states, steps) && k < |states|
    requires a in states[k].sessions && Holding(states[k].sessions[a].pc)
    requires b in states[k].sessions && states[k].sessions[b].pc.Trying? && unused !in states[k].nodes
    ensures
      var st := Unlink(states[k]);
      && Enabled(st, Open(b, unused))
      && Enabled(Apply(st, Open(b, unused)), Lock(b))
      && var end := Apply(Apply(st, Open(b, unused)), Lock(b));
      && a != b && a in end.sessions && b in end.sessions
      && Holding(end.sessions[a].pc) && Holding(end.sessions[b].pc)
  {
    RunKeepsInv(states, steps, k);
  }
}
