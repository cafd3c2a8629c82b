/** `attach`, `detach` and `isAttached` (cmd/flexplugin/main.go) on the OpenStack cloud
    (pkg/utils/rest_utils.go). Kubernetes gives `detach` no more than the name of the volume, so the
    name that `attach` stores in the metadata of the volume is an index into the cloud. Any number of
    driver processes interleave; every call to the cloud is one step. */
module AttachDetach {
  import opened Text

  type VolumeId = string
  type Vm = string
  type NodeName = string
  type Pid = nat

  /** The volumes, the PV name in the metadata of each, and which volume is attached to which VM. */
  datatype Cloud = Cloud(volumes: set<VolumeId>, names: map<VolumeId, string>, attached: set<(VolumeId, Vm)>)

  // ----- GetVolumeByMetadataProperty

  /** A page of the listing; None when it cannot be extracted. */
  type Page = Option<seq<VolumeId>>

  predicate AllRead(pages: seq<Page>) {
    forall k :: 0 <= k < |pages| ==> pages[k].Some?
  }

  function Concat(pages: seq<Page>): seq<VolumeId>
    requires AllRead(pages)
  {
    if pages == [] then [] else Concat(pages[..|pages| - 1]) + pages[|pages| - 1].value
  }

  lemma ConcatSnoc(pages: seq<Page>, page: Page)
    requires page.Some? && AllRead(pages)
    ensures Concat(pages + [page]) == Concat(pages) + page.value
  {
    assert (pages + [page])[..|pages|] == pages;
  }

  /** Success exactly when all pages can be read and they hold one volume in all, which is then the
      only element of the result: the index 0 that detach uses is always in range. */
  method GetVolumeByMetadataProperty(pages: seq<Page>) returns (r: Option<seq<VolumeId>>)
    ensures r.Some? <==> AllRead(pages) && |Concat(pages)| == 1
    ensures r.Some? ==> r.value == Concat(pages) && |r.value| == 1
  {
    var volList: seq<VolumeId> := [];
    for n := 0 to |pages|
      invariant forall k :: 0 <= k < n ==> pages[k].Some?
      invariant volList == Concat(pages[..n])
    {
      if pages[n].None? {
        return None;
      }
      ConcatSnoc(pages[..n], pages[n]);
      assert pages[..n + 1] == pages[..n] + [pages[n]];
      for i := 0 to |pages[n].value|
        invariant volList == Concat(pages[..n]) + pages[n].value[..i]
      {
        volList := volList + [pages[n].value[i]];
      }
    }
    assert pages[..|pages|] == pages;
    if |volList| == 0 || |volList| > 1 {
      return None;
    }
    return Some(volList);
  }

  /** The cloud filters by metadata and lists every match once. */
  ghost predicate IsListing(c: Cloud, name: string, listing: seq<VolumeId>) {
    && (forall v :: v in listing <==> v in c.names && c.names[v] == name)
    && (forall i, j :: 0 <= i < j < |listing| ==> listing[i] != listing[j])
  }

  // ----- driver processes

  datatype Task =
    | Attach(volume: VolumeId, name: string, node: NodeName)
    | Detach(name: string, node: NodeName)
    | Ask(volume: VolumeId, node: NodeName)

  /** How far an operation got; the last is the answer of isAttached. */
  datatype Stage = NoVm | NoVolume | NoMetadata | NotAttached | NoPath | NotDetached | Complete | Reported(attached: bool)

  datatype Pc =
    | Begin
    | GotVm(vm: Vm)
    | GotVolume(vm: Vm)
    | Named(vm: Vm)
    | Linked(vm: Vm)
    | Resolved(volume: VolumeId)
    | Located(volume: VolumeId, vm: Vm)
    | Asking(vm: Vm)
    | Finished(stage: Stage)

  datatype Process = Process(task: Task, pc: Pc)

  /** A change of the cloud, made by the process `actor`. */
  datatype Change =
    | Naming(volume: VolumeId, name: string, actor: Pid)
    | Linking(volume: VolumeId, vm: Vm, actor: Pid)
    | Unlinking(volume: VolumeId, vm: Vm, actor: Pid)

  datatype System = System(
    cloud: Cloud, servers: map<NodeName, Vm>, procs: map<Pid, Process>, log: seq<Change>)

  /** The answer to a query for the attachment of a volume to a VM: no record, or one that names a VM or
      none. */
  type Attachment = Option<Vm>

  /** Process p makes its next call; `ok` tells whether the call works, `listing` is what a query by
      metadata returns, `attachment` what a query for an attachment does. */
  datatype Event = Act(p: Pid, ok: bool, listing: seq<VolumeId>, attachment: Attachment)

  function At(s: System, p: Pid, pc: Pc): System
    requires p in s.procs
  {
    s.(procs := s.procs[p := s.procs[p].(pc := pc)])
  }

  function SetName(c: Cloud, v: VolumeId, name: string): Cloud { c.(names := c.names[v := name]) }

  function Link(c: Cloud, v: VolumeId, vm: Vm): Cloud { c.(attached := c.attached + {(v, vm)}) }

  function Unlink(c: Cloud, v: VolumeId, vm: Vm): Cloud { c.(attached := c.attached - {(v, vm)}) }

  /** isAttached reports the volume as attached: the query names the VM. */
  predicate IsReported(vm: Vm, attachment: Attachment) {
    attachment == Some(vm) && vm != []
  }

  predicate IsActing(s: System, e: Event) {
    e.p in s.procs && !s.procs[e.p].pc.Finished?
  }

  /** The cloud refuses calls for a volume that it does not have. */
  function AttachStep(s: System, e: Event): System
    requires IsActing(s, e) && s.procs[e.p].task.Attach?
  {
    var Attach(volume, name, node) := s.procs[e.p].task;
    var works := e.ok && volume in s.cloud.volumes;
    match s.procs[e.p].pc
    case Begin =>
      if e.ok && node in s.servers then At(s, e.p, GotVm(s.servers[node])) else At(s, e.p, Finished(NoVm))
    case GotVm(vm) => At(s, e.p, if works then GotVolume(vm) else Finished(NoVolume))
    case GotVolume(vm) =>
      if works then
        At(s, e.p, Named(vm)).(cloud := SetName(s.cloud, volume, name), log := s.log + [Naming(volume, name, e.p)])
      else At(s, e.p, Finished(NoMetadata))
    case Named(vm) =>
      if works then
        At(s, e.p, Linked(vm)).(cloud := Link(s.cloud, volume, vm), log := s.log + [Linking(volume, vm, e.p)])
      else At(s, e.p, Finished(NotAttached))
    case Linked(vm) => At(s, e.p, Finished(if e.ok then Complete else NoPath))
    case _ => s
  }

  function DetachStep(s: System, e: Event): System
    requires IsActing(s, e) && s.procs[e.p].task.Detach?
  {
    var Detach(name, node) := s.procs[e.p].task;
    match s.procs[e.p].pc
    case Begin =>
      if e.ok && |e.listing| == 1 then At(s, e.p, Resolved(e.listing[0])) else At(s, e.p, Finished(NoVolume))
    case Resolved(volume) =>
      if e.ok && node in s.servers then At(s, e.p, Located(volume, s.servers[node]))
      else At(s, e.p, Finished(NoVm))
    case Located(volume, vm) =>
      if e.ok then
        At(s, e.p, Finished(Complete)).(cloud := Unlink(s.cloud, volume, vm), log := s.log + [Unlinking(volume, vm, e.p)])
      else At(s, e.p, Finished(NotDetached))
    case _ => s
  }

  /** An error of the query for the attachment is no error of isAttached. */
  function AskStep(s: System, e: Event): System
    requires IsActing(s, e) && s.procs[e.p].task.Ask?
  {
    match s.procs[e.p].pc
    case Begin =>
      var node := s.procs[e.p].task.node;
      if e.ok && node in s.servers then At(s, e.p, Asking(s.servers[node])) else At(s, e.p, Finished(NoVm))
    case Asking(vm) => At(s, e.p, Finished(Reported(IsReported(vm, e.attachment))))
    case _ => s
  }

  function Step(s: System, e: Event): System
    requires IsActing(s, e)
  {
    match s.procs[e.p].task
    case Attach(_, _, _) => AttachStep(s, e)
    case Detach(_, _) => DetachStep(s, e)
    case Ask(_, _) => AskStep(s, e)
  }

  /** What the cloud can answer to a query for the attachment of the volume to the VM. A query that works
      shows the attachment if there is one; otherwise it finds no record, one that names no VM, or one
      that names another VM the volume is attached to. */
  predicate IsAnswer(c: Cloud, volume: VolumeId, vm: Vm, attachment: Attachment, works: bool) {
    if !works then attachment == None
    else if (volume, vm) in c.attached then attachment == Some(vm)
    else attachment.Some? && attachment.value != [] ==> (volume, attachment.value) in c.attached
  }

  /** A listing is asked for, and then truthful, when a detach begins; an attachment is when isAttached
      knows the VM. */
  ghost predicate IsPossible(s: System, e: Event) {
    && IsActing(s, e)
    && (s.procs[e.p].task.Detach? && s.procs[e.p].pc.Begin? ==> IsListing(s.cloud, s.procs[e.p].task.name, e.listing))
    && (s.procs[e.p].task.Ask? && s.procs[e.p].pc.Asking? ==>
          IsAnswer(s.cloud, s.procs[e.p].task.volume, s.procs[e.p].pc.vm, e.attachment, e.ok))
  }

  ghost predicate IsRun(s: System, es: seq<Event>)
    decreases |es|, 1
  {
    es == [] || (IsRun(s, es[..|es| - 1]) && IsPossible(Exec(s, es[..|es| - 1]), es[|es| - 1]))
  }

  /** The state after a run. */
  ghost function Exec(s: System, es: seq<Event>): System
    requires IsRun(s, es)
    decreases |es|, 2
  {
    if es == [] then s else Step(Exec(s, es[..|es| - 1]), es[|es| - 1])
  }

  /** Nobody has begun. */
  predicate IsFresh(s: System) {
    s.log == [] && forall p :: p in s.procs ==> s.procs[p].pc.Begin?
  }

  /** The process is at a place of its own operation, and the VM it works on is the one of its node. */
  predicate IsOnItsWay(s: System, p: Pid)
    requires p in s.procs
  {
    var task, pc := s.procs[p].task, s.procs[p].pc;
    match pc
    case Begin => true
    case Finished(_) => true
    case Resolved(_) => task.Detach?
    case Located(_, vm) => task.Detach? && task.node in s.servers && vm == s.servers[task.node]
    case Asking(vm) => task.Ask? && task.node in s.servers && vm == s.servers[task.node]
    case _ => task.Attach? && task.node in s.servers && pc.vm == s.servers[task.node]
  }

  /** A step changes the record of the acting process only. */
  lemma OthersUntouched(s: System, e: Event, p: Pid)
    requires IsActing(s, e) && p in s.procs && p != e.p
    ensures p in Step(s, e).procs && Step(s, e).procs[p] == s.procs[p] && Step(s, e).servers == s.servers
  {
  }

  lemma ActorKeepsItsWay(s: System, e: Event)
    requires IsActing(s, e) && IsOnItsWay(s, e.p)
    ensures e.p in Step(s, e).procs && IsOnItsWay(Step(s, e), e.p) && Step(s, e).procs[e.p].task == s.procs[e.p].task
  {
  }

  lemma {:induction false} RunKeepsItsWay(s0: System, es: seq<Event>, p: Pid)
    requires IsFresh(s0) && IsRun(s0, es) && p in Exec(s0, es).procs
    ensures p in s0.procs && IsOnItsWay(Exec(s0, es), p) && Exec(s0, es).procs[p].task == s0.procs[p].task
    decreases |es|
  {
    hide Step;
    if es == [] {
    } else {
      var front, e := es[..|es| - 1], es[|es| - 1];
      var s := Exec(s0, front);
      SameProcesses(s, e);
      RunKeepsItsWay(s0, front, p);
      if p == e.p {
        ActorKeepsItsWay(s, e);
      } else {
        OthersUntouched(s, e, p);
      }
    }
  }

  lemma SameProcesses(s: System, e: Event)
    requires IsActing(s, e)
    ensures Step(s, e).procs.Keys == s.procs.Keys
  {
  }

  // ----- the metadata index

  /** PV names and volumes correspond one to one. */
  ghost predicate IsInjective(pv: map<VolumeId, string>) {
    forall v, w :: v in pv && w in pv && pv[v] == pv[w] ==> v == w
  }

  /** An attach names its volume as the correspondence says. */
  predicate Agrees(pv: map<VolumeId, string>, task: Task) {
    task.Attach? ==> task.volume in pv && pv[task.volume] == task.name
  }

  ghost predicate NamesAgree(pv: map<VolumeId, string>, c: Cloud) {
    forall v :: v in c.names ==> v in pv && c.names[v] == pv[v]
  }

  /** Before the run: nobody has begun, and names already stored agree with the correspondence. */
  ghost predicate IsInitial(pv: map<VolumeId, string>, s: System) {
    IsFresh(s) && NamesAgree(pv, s.cloud) && forall p :: p in s.procs ==> Agrees(pv, s.procs[p].task)
  }

  /** The metadata update of this attach is done. */
  predicate HasNamed(proc: Process) {
    && proc.task.Attach?
    && match proc.pc
       case Named(_) => true
       case Linked(_) => true
       case Finished(stage) => stage == NotAttached || stage == NoPath || stage == Complete
       case _ => false
  }

  predicate IsStored(c: Cloud, v: VolumeId, name: string) {
    v in c.names && c.names[v] == name
  }

  predicate ProcessOk(pv: map<VolumeId, string>, s: System, p: Pid)
    requires p in s.procs
  {
    var proc := s.procs[p];
    && IsOnItsWay(s, p)
    && Agrees(pv, proc.task)
    && (HasNamed(proc) ==> IsStored(s.cloud, proc.task.volume, proc.task.name))
    && (proc.pc.Resolved? || proc.pc.Located? ==> IsStored(s.cloud, proc.pc.volume, proc.task.name))
  }

  ghost predicate Inv(pv: map<VolumeId, string>, s: System) {
    && NamesAgree(pv, s.cloud)
    && (forall p :: p in s.procs ==> ProcessOk(pv, s, p))
  }

  /** Names only grow, and an attach adds no name but the agreed one. */
  lemma StepKeepsNames(pv: map<VolumeId, string>, s: System, e: Event)
    requires NamesAgree(pv, s.cloud) && IsPossible(s, e) && ProcessOk(pv, s, e.p)
    ensures NamesAgree(pv, Step(s, e).cloud)
    ensures forall v, name :: IsStored(s.cloud, v, name) ==> IsStored(Step(s, e).cloud, v, name)
  {
  }

  lemma ActorStaysOk(pv: map<VolumeId, string>, s: System, e: Event)
    requires NamesAgree(pv, s.cloud) && IsPossible(s, e) && ProcessOk(pv, s, e.p)
    ensures e.p in Step(s, e).procs && ProcessOk(pv, Step(s, e), e.p)
  {
    if s.procs[e.p].task.Detach? && s.procs[e.p].pc.Begin? && |e.listing| == 1 {
      assert e.listing[0] in e.listing;
    }
  }

  lemma OthersStayOk(pv: map<VolumeId, string>, s: System, e: Event, p: Pid)
    requires NamesAgree(pv, s.cloud) && IsPossible(s, e) && ProcessOk(pv, s, e.p)
    requires p in s.procs && p != e.p && ProcessOk(pv, s, p)
    ensures p in Step(s, e).procs && ProcessOk(pv, Step(s, e), p)
  {
    StepKeepsNames(pv, s, e);
    OthersUntouched(s, e, p);
    hide Step, IsPossible, NamesAgree, IsStored;
  }

  lemma StepKeepsInv(pv: map<VolumeId, string>, s: System, e: Event)
    requires Inv(pv, s) && IsPossible(s, e)
    ensures Inv(pv, Step(s, e))
  {
    hide Step, ProcessOk, NamesAgree;
    SameProcesses(s, e);
    StepKeepsNames(pv, s, e);
    ActorStaysOk(pv, s, e);
    forall p | p in s.procs && p != e.p ensures ProcessOk(pv, Step(s, e), p) {
      OthersStayOk(pv, s, e, p);
    }
  }

  lemma {:induction false} RunKeepsInv(pv: map<VolumeId, string>, s0: System, es: seq<Event>)
    requires IsInitial(pv, s0) && IsRun(s0, es)
    ensures Inv(pv, Exec(s0, es))
    decreases |es|
  {
    if es == [] {
      forall p | p in s0.procs ensures ProcessOk(pv, s0, p) {
      }
    } else {
      hide Inv, IsInitial, Step;
      RunKeepsInv(pv, s0, es[..|es| - 1]);
      StepKeepsInv(pv, Exec(s0, es[..|es| - 1]), es[|es| - 1]);
    }
  }

  /** In every interleaved run, once an attach has stored the name, a query for that name finds
      exactly its volume, whatever other processes on other nodes have done since: so detach resolves
      to that volume, and goes on to do so for the other nodes after a first detach. */
  lemma DetachFindsTheVolume(pv: map<VolumeId, string>, s0: System, es: seq<Event>, p: Pid, listing: seq<VolumeId>)
    requires IsInitial(pv, s0) && IsInjective(pv) && IsRun(s0, es)
    requires p in Exec(s0, es).procs && HasNamed(Exec(s0, es).procs[p])
    requires IsListing(Exec(s0, es).cloud, Exec(s0, es).procs[p].task.name, listing)
    ensures listing == [Exec(s0, es).procs[p].task.volume]
  {
    RunKeepsInv(pv, s0, es);
    var s := Exec(s0, es);
    assert ProcessOk(pv, s, p);
    var v := s.procs[p].task.volume;
    OnlyMatch(s.cloud, s.procs[p].task.name, listing, v);
  }

  /** A name that one volume carries lists that volume. */
  lemma OnlyMatch(c: Cloud, name: string, listing: seq<VolumeId>, v: VolumeId)
    requires IsListing(c, name, listing) && IsStored(c, v, name)
    requires forall w :: IsStored(c, w, name) ==> w == v
    ensures listing == [v]
  {
    assert v in listing;
    forall i | 0 <= i < |listing| ensures listing[i] == v {
      assert listing[i] in listing;
      assert IsStored(c, listing[i], name);
    }
    var first, last := listing[0], listing[|listing| - 1];
  }

  lemma NoMatch(c: Cloud, name: string, listing: seq<VolumeId>)
    requires IsListing(c, name, listing)
    ensures listing == [] || exists v :: IsStored(c, v, name)
  {
    if listing != [] {
      assert listing[0] in listing;
      assert IsStored(c, listing[0], name);
    }
  }

  /** A step of a detach leaves the volumes and the names alone, and of the attachments it removes at
      most the one of the volume with that name on the VM of that node. */
  lemma DetachTouchesOneAttachment(pv: map<VolumeId, string>, s0: System, es: seq<Event>, e: Event)
    requires IsInitial(pv, s0) && IsInjective(pv) && IsRun(s0, es)
    requires IsPossible(Exec(s0, es), e) && Exec(s0, es).procs[e.p].task.Detach?
    ensures var s := Exec(s0, es);
            var t := Step(s, e);
            var task := s.procs[e.p].task;
            && t.cloud.volumes == s.cloud.volumes && t.cloud.names == s.cloud.names
            && forall v, vm :: (v, vm) in t.cloud.attached <==>
                 (v, vm) in s.cloud.attached
                 && !(t.procs[e.p].pc == Finished(Complete) && v in pv && pv[v] == task.name
                      && task.node in s.servers && vm == s.servers[task.node])
  {
    RunKeepsInv(pv, s0, es);
    hide IsRun, Exec;
    assert ProcessOk(pv, Exec(s0, es), e.p);
  }

  /** The condition cannot be dropped: when two volumes carry a name, every detach by that name fails
      and changes nothing. */
  lemma SharedNameBlocksDetach(s: System, e: Event, v: VolumeId, w: VolumeId)
    requires IsPossible(s, e) && s.procs[e.p].task.Detach? && s.procs[e.p].pc.Begin?
    requires v != w && v in s.cloud.names && w in s.cloud.names
    requires s.cloud.names[v] == s.procs[e.p].task.name == s.cloud.names[w]
    ensures Step(s, e) == At(s, e.p, Finished(NoVolume))
  {
    assert v in e.listing && w in e.listing;
    var i :| 0 <= i < |e.listing| && e.listing[i] == v;
    var j :| 0 <= j < |e.listing| && e.listing[j] == w;
  }

  // ----- the attachment relation

  /** A call that attaches the volume to the VM of the node of the calling process, and works. */
  predicate IsAttachCall(s: System, e: Event, v: VolumeId, vm: Vm) {
    && IsActing(s, e) && e.ok && v in s.cloud.volumes
    && s.procs[e.p].pc.Named? && s.procs[e.p].task.Attach? && s.procs[e.p].task.volume == v
    && s.procs[e.p].task.node in s.servers && s.servers[s.procs[e.p].task.node] == vm
  }

  /** A call that detaches the volume from the VM of the node of the calling process, and works. */
  predicate IsDetachCall(s: System, e: Event, v: VolumeId, vm: Vm) {
    && IsActing(s, e) && e.ok
    && s.procs[e.p].pc.Located? && s.procs[e.p].task.Detach? && s.procs[e.p].pc.volume == v
    && s.procs[e.p].task.node in s.servers && s.servers[s.procs[e.p].task.node] == vm
  }

  /** Of the calls of the run that work and concern the pair the last was an attach; without any, the pair
      was attached before. */
  ghost predicate LastCallAttached(s0: System, es: seq<Event>, v: VolumeId, vm: Vm)
    requires IsRun(s0, es)
    decreases |es|
  {
    if es == [] then (v, vm) in s0.cloud.attached
    else
      var front, e := es[..|es| - 1], es[|es| - 1];
      || IsAttachCall(Exec(s0, front), e, v, vm)
      || (LastCallAttached(s0, front, v, vm) && !IsDetachCall(Exec(s0, front), e, v, vm))
  }

  lemma StepFollowsCall(s: System, e: Event, v: VolumeId, vm: Vm)
    requires IsActing(s, e) && IsOnItsWay(s, e.p)
    ensures (v, vm) in Step(s, e).cloud.attached <==>
            IsAttachCall(s, e, v, vm) || ((v, vm) in s.cloud.attached && !IsDetachCall(s, e, v, vm))
  {
  }

  /** In every run, whether names correspond to volumes or not: a volume is attached to the VM of a node
      exactly when the last call for that volume and a node on that VM that worked was an attach. */
  lemma {:induction false} AttachmentFollowsCalls(s0: System, es: seq<Event>, v: VolumeId, vm: Vm)
    requires IsFresh(s0) && IsRun(s0, es)
    ensures (v, vm) in Exec(s0, es).cloud.attached <==> LastCallAttached(s0, es, v, vm)
    decreases |es|
  {
    hide Step, IsAttachCall, IsDetachCall, IsFresh;
    if es == [] {
    } else {
      var front, e := es[..|es| - 1], es[|es| - 1];
      AttachmentFollowsCalls(s0, front, v, vm);
      RunKeepsItsWay(s0, front, e.p);
      StepFollowsCall(Exec(s0, front), e, v, vm);
    }
  }

  /** In every run: when isAttached has found the VM of its node, it reports, and the report agrees with
      the last call for the pair if and only if the query works, and the VM has an ID, or the pair is not
      attached: so a failed query is never taken for an attachment, and always hides one. */
  lemma IsAttachedAgrees(s0: System, es: seq<Event>, e: Event)
    requires IsFresh(s0) && IsRun(s0, es) && IsPossible(Exec(s0, es), e)
    requires Exec(s0, es).procs[e.p].task.Ask? && !Exec(s0, es).procs[e.p].pc.Begin?
    ensures var s := Exec(s0, es);
            var Ask(volume, node) := s.procs[e.p].task;
            var pc := Step(s, e).procs[e.p].pc;
            && node in s.servers && pc.Finished? && pc.stage.Reported?
            && Step(s, e).cloud == s.cloud
            && ((pc.stage.attached <==> LastCallAttached(s0, es, volume, s.servers[node])) <==>
                (e.ok && s.servers[node] != []) || !LastCallAttached(s0, es, volume, s.servers[node]))
  {
    RunKeepsItsWay(s0, es, e.p);
    var s := Exec(s0, es);
    var task := s.procs[e.p].task;
    AttachmentFollowsCalls(s0, es, task.volume, s.servers[task.node]);
    hide IsRun, Exec, IsFresh, LastCallAttached;
  }

  // ----- what an operation has done to the cloud

  function Apply(c: Cloud, change: Change): Cloud {
    match change
    case Naming(v, name, _) => SetName(c, v, name)
    case Linking(v, vm, _) => Link(c, v, vm)
    case Unlinking(v, vm, _) => Unlink(c, v, vm)
  }

  function Replay(c: Cloud, log: seq<Change>): Cloud {
    if log == [] then c else Apply(Replay(c, log[..|log| - 1]), log[|log| - 1])
  }

  lemma StepIsLogged(s: System, e: Event)
    requires IsActing(s, e)
    ensures var t := Step(s, e);
            || (t.cloud == s.cloud && t.log == s.log)
            || (|t.log| == |s.log| + 1 && t.log[..|s.log|] == s.log && t.log[|s.log|].actor == e.p
                && t.cloud == Apply(s.cloud, t.log[|s.log|]))
  {
  }

  /** The log is complete: in every run the cloud is what its changes, one after the other, make of the
      cloud of before. */
  lemma {:induction false} CloudFollowsLog(s0: System, es: seq<Event>)
    requires s0.log == [] && IsRun(s0, es)
    ensures Exec(s0, es).cloud == Replay(s0.cloud, Exec(s0, es).log)
    decreases |es|
  {
    hide Step, Apply;
    if es == [] {
    } else {
      CloudFollowsLog(s0, es[..|es| - 1]);
      StepIsLogged(Exec(s0, es[..|es| - 1]), es[|es| - 1]);
    }
  }

  function ChangesBy(log: seq<Change>, p: Pid): seq<Change>
    decreases |log|
  {
    if log == [] then []
    else
      var last := log[|log| - 1];
      ChangesBy(log[..|log| - 1], p) + if last.actor == p then [last] else []
  }

  lemma ChangesBySnoc(log: seq<Change>, c: Change, p: Pid)
    ensures ChangesBy(log + [c], p) == ChangesBy(log, p) + if c.actor == p then [c] else []
  {
    assert (log + [c])[..|log|] == log;
  }

  /** The changes that an attach has made when it is at this place: none, the name, or the name and the
      attachment; None for a place where an attach cannot be. */
  function AttachEffect(task: Task, servers: map<NodeName, Vm>, pc: Pc, p: Pid): Option<seq<Change>>
    requires task.Attach?
  {
    var named := [Naming(task.volume, task.name, p)];
    var linked := if task.node in servers then Some(named + [Linking(task.volume, servers[task.node], p)]) else None;
    match pc
    case Begin => Some([])
    case GotVm(_) => Some([])
    case GotVolume(_) => Some([])
    case Named(_) => Some(named)
    case Linked(_) => linked
    case Finished(stage) =>
      (match stage
       case NoVm => Some([])
       case NoVolume => Some([])
       case NoMetadata => Some([])
       case NotAttached => Some(named)
       case NoPath => linked
       case Complete => linked
       case _ => None)
    case _ => None
  }

  /** The stage of an operation tells its effect on the cloud. */
  ghost predicate EffectShows(s: System, p: Pid)
    requires p in s.procs
  {
    var proc, own := s.procs[p], ChangesBy(s.log, p);
    match proc.task
    case Attach(_, _, _) => AttachEffect(proc.task, s.servers, proc.pc, p) == Some(own)
    case Detach(_, node) =>
      if proc.pc == Finished(Complete) then
        node in s.servers && |own| == 1 && own[0] == Unlinking(own[0].volume, s.servers[node], p)
      else own == []
    case Ask(_, _) => own == []
  }

  lemma OwnChanges(s: System, e: Event, p: Pid)
    requires IsActing(s, e) && p in s.procs
    ensures var t := Step(s, e);
            if p == e.p && t.log != s.log then
              |t.log| > 0 && ChangesBy(t.log, p) == ChangesBy(s.log, p) + [t.log[|t.log| - 1]]
            else ChangesBy(t.log, p) == ChangesBy(s.log, p)
  {
    StepIsLogged(s, e);
    hide Step, ChangesBy;
    var t := Step(s, e);
    if t.log != s.log {
      assert t.log == s.log + [t.log[|s.log|]];
      ChangesBySnoc(s.log, t.log[|s.log|], p);
    }
  }

  lemma OthersShowEffect(s: System, e: Event, p: Pid)
    requires IsActing(s, e) && p in s.procs && p != e.p && EffectShows(s, p)
    ensures p in Step(s, e).procs && EffectShows(Step(s, e), p)
  {
    OwnChanges(s, e, p);
    OthersUntouched(s, e, p);
    hide Step, ChangesBy, AttachEffect;
  }

  /** A step of an attach adds to the effect of its place what it logs. */
  lemma AttachExtendsEffect(s: System, e: Event)
    requires IsActing(s, e) && s.procs[e.p].task.Attach? && IsOnItsWay(s, e.p)
    requires AttachEffect(s.procs[e.p].task, s.servers, s.procs[e.p].pc, e.p).Some?
    ensures var t := AttachStep(s, e);
            var before := AttachEffect(s.procs[e.p].task, s.servers, s.procs[e.p].pc, e.p).value;
            && e.p in t.procs && t.procs[e.p].task == s.procs[e.p].task && t.servers == s.servers
            && AttachEffect(t.procs[e.p].task, t.servers, t.procs[e.p].pc, e.p) ==
               if t.log == s.log then Some(before) else if |t.log| > 0 then Some(before + [t.log[|t.log| - 1]]) else None
  {
    var p, task, t := e.p, s.procs[e.p].task, AttachStep(s, e);
    var works := e.ok && task.volume in s.cloud.volumes;
    if works && s.procs[p].pc.GotVolume? {
      assert t.log == s.log + [Naming(task.volume, task.name, p)];
      var own := [Naming(task.volume, task.name, p)];
      assert t.log[|t.log| - 1] == own[0] && [] + own == own;
    } else if works && s.procs[p].pc.Named? {
      assert t.log == s.log + [Linking(task.volume, s.servers[task.node], p)];
      assert t.log[|t.log| - 1] == Linking(task.volume, s.servers[task.node], p);
    } else {
      assert t.log == s.log;
    }
  }

  lemma AttachShowsEffect(s: System, e: Event)
    requires IsActing(s, e) && EffectShows(s, e.p) && IsOnItsWay(s, e.p) && s.procs[e.p].task.Attach?
    ensures e.p in AttachStep(s, e).procs && EffectShows(AttachStep(s, e), e.p)
  {
    OwnChanges(s, e, e.p);
    assert Step(s, e) == AttachStep(s, e);
    hide ChangesBy, Step, AttachStep, AttachEffect, IsOnItsWay;
    AttachExtendsEffect(s, e);
  }

  lemma DetachShowsEffect(s: System, e: Event)
    requires IsActing(s, e) && EffectShows(s, e.p) && IsOnItsWay(s, e.p) && !s.procs[e.p].task.Attach?
    ensures e.p in Step(s, e).procs && EffectShows(Step(s, e), e.p)
  {
    OwnChanges(s, e, e.p);
    hide ChangesBy, AttachEffect, AttachStep;
  }

  lemma ActorShowsEffect(s: System, e: Event)
    requires IsActing(s, e) && EffectShows(s, e.p) && IsOnItsWay(s, e.p)
    ensures e.p in Step(s, e).procs && EffectShows(Step(s, e), e.p)
  {
    if s.procs[e.p].task.Attach? {
      AttachShowsEffect(s, e);
      assert Step(s, e) == AttachStep(s, e);
    } else {
      DetachShowsEffect(s, e);
    }
  }

  /** In every run, despite interference: each operation has made exactly the changes that its stage
      tells. An attach that failed for want of the VM, the volume or the metadata has changed nothing, one
      that could not attach has stored the name and no more, one that got further has stored the name and
      then attached its volume to the VM of its node; a detach has removed one attachment from that VM if
      it completed and nothing otherwise; isAttached changes nothing. */
  lemma {:induction false} ResponseTellsEffect(s0: System, es: seq<Event>, p: Pid)
    requires IsFresh(s0) && IsRun(s0, es) && p in Exec(s0, es).procs
    ensures EffectShows(Exec(s0, es), p)
    decreases |es|
  {
    hide Step, EffectShows, IsOnItsWay;
    if es == [] {
      EffectShowsAtStart(s0, p);
    } else {
      var front, e := es[..|es| - 1], es[|es| - 1];
      var s := Exec(s0, front);
      SameProcesses(s, e);
      ResponseTellsEffect(s0, front, p);
      RunKeepsItsWay(s0, front, p);
      if p == e.p {
        ActorShowsEffect(s, e);
      } else {
        OthersShowEffect(s, e, p);
      }
    }
  }

  lemma EffectShowsAtStart(s: System, p: Pid)
    requires IsFresh(s) && p in s.procs
    ensures EffectShows(s, p)
  {
  }

  // ----- one driver process by itself

  /** Whether each call of an operation works, in the order in which they are made. */
  type Answers = nat -> bool

  /** attach, when nobody else touches the cloud meanwhile. */
  function AttachAlone(c: Cloud, servers: map<NodeName, Vm>, volume: VolumeId, name: string, node: NodeName, ok: Answers)
    : (Cloud, Stage)
  {
    if !ok(0) || node !in servers then (c, NoVm)
    else if !ok(1) || volume !in c.volumes then (c, NoVolume)
    else if !ok(2) then (c, NoMetadata)
    else
      var c1 := SetName(c, volume, name);
      if !ok(3) then (c1, NotAttached)
      else (Link(c1, volume, servers[node]), if ok(4) then Complete else NoPath)
  }

  /** detach, likewise; `listing` answers its query. */
  function DetachAlone(c: Cloud, servers: map<NodeName, Vm>, node: NodeName, listing: seq<VolumeId>, ok: Answers)
    : (Cloud, Stage)
  {
    if !ok(0) || |listing| != 1 then (c, NoVolume)
    else if !ok(1) || node !in servers then (c, NoVm)
    else if !ok(2) then (c, NotDetached)
    else (Unlink(c, listing[0], servers[node]), Complete)
  }

  /** The calls of an attach, numbered: call k can succeed. */
  predicate CanServe(c: Cloud, servers: map<NodeName, Vm>, volume: VolumeId, node: NodeName, k: nat) {
    (k == 0 ==> node in servers) && (k == 1 ==> volume in c.volumes)
  }

  /** The number of calls that an attach which ends at this stage has made with success. */
  function CallsBefore(stage: Stage): nat {
    match stage
    case NoVm => 0
    case NoVolume => 1
    case NoMetadata => 2
    case NotAttached => 3
    case NoPath => 4
    case _ => 5
  }

  /** What the driver knows of the cloud, which its methods change. */
  class Driver {
    var cloud: Cloud
    const servers: map<NodeName, Vm>

    constructor (cloud: Cloud, servers: map<NodeName, Vm>)
      ensures this.cloud == cloud && this.servers == servers
    {
      this.cloud := cloud;
      this.servers := servers;
    }

    /** GetVMID. */
    method GetVmId(node: NodeName, ok: bool) returns (vm: Option<Vm>)
      ensures vm == if ok && node in servers then Some(servers[node]) else None
    {
      vm := None;
      if ok && node in servers {
        vm := Some(servers[node]);
      }
    }

    /** attach. It ends at the first of its five calls that fails; the volumes never change, the name is
        stored exactly when the third call was reached and worked, the attachment made exactly when the
        fourth was. */
    method Attach(volume: VolumeId, name: string, node: NodeName, ok: Answers) returns (stage: Stage)
      modifies this
      ensures (cloud, stage) == AttachAlone(old(cloud), servers, volume, name, node, ok)
      ensures forall k :: 0 <= k < CallsBefore(stage) ==> ok(k) && CanServe(old(cloud), servers, volume, node, k)
      ensures var k := CallsBefore(stage); k < 5 ==> !(ok(k) && CanServe(old(cloud), servers, volume, node, k))
      ensures cloud.volumes == old(cloud).volumes
      ensures cloud.names == if CallsBefore(stage) >= 3 then old(cloud).names[volume := name] else old(cloud).names
      ensures forall v, vm :: (v, vm) in cloud.attached <==>
                (v, vm) in old(cloud).attached
                || (CallsBefore(stage) >= 4 && node in servers && (v, vm) == (volume, servers[node]))
    {
      var vm := GetVmId(node, ok(0));
      if vm.None? {
        return NoVm;
      }
      if !ok(1) || volume !in cloud.volumes {
        return NoVolume;
      }
      if !ok(2) {
        return NoMetadata;
      }
      cloud := SetName(cloud, volume, name);
      if !ok(3) {
        return NotAttached;
      }
      cloud := Link(cloud, volume, vm.value);
      return if ok(4) then Complete else NoPath;
    }

    /** detach. It fails if the pages cannot be read or do not hold exactly one volume, then if there is no
        VM, then if the call fails; otherwise it removes the attachment of that volume to the VM of the node,
        and nothing else ever. */
    method Detach(pages: seq<Page>, node: NodeName, ok: Answers) returns (stage: Stage)
      modifies this
      ensures (cloud, stage) ==
              if AllRead(pages) then DetachAlone(old(cloud), servers, node, Concat(pages), ok)
              else (old(cloud), NoVolume)
      ensures var found := ok(0) && AllRead(pages) && |Concat(pages)| == 1;
              && (stage == NoVolume <==> !found)
              && (stage == NoVm <==> found && !(ok(1) && node in servers))
              && (stage == NotDetached <==> found && ok(1) && node in servers && !ok(2))
              && (stage == Complete <==> found && ok(1) && node in servers && ok(2))
      ensures cloud.volumes == old(cloud).volumes && cloud.names == old(cloud).names
      ensures forall v, vm :: (v, vm) in cloud.attached <==>
                (v, vm) in old(cloud).attached
                && !(stage == Complete && AllRead(pages) && Concat(pages) == [v] && node in servers && vm == servers[node])
    {
      if !ok(0) {
        return NoVolume;
      }
      var vols := GetVolumeByMetadataProperty(pages);
      if vols.None? {
        return NoVolume;
      }
      var volume := vols.value[0];
      var vm := GetVmId(node, ok(1));
      if vm.None? {
        return NoVm;
      }
      if !ok(2) {
        return NotDetached;
      }
      cloud := Unlink(cloud, volume, vm.value);
      return Complete;
    }

    /** isAttached: None for a Failed response, otherwise the answer that is reported. An error of the
        query is reported as "not attached". */
    method IsAttached(volume: VolumeId, node: NodeName, ok: bool, attachment: Attachment) returns (answer: Option<bool>)
      ensures answer.Some? <==> ok && node in servers
      ensures answer.Some? ==> (answer.value <==> attachment == Some(servers[node]) && servers[node] != "")
    {
      var vm := GetVmId(node, ok);
      if vm.None? {
        return None;
      }
      if attachment.None? {
        return Some(false);
      } else if attachment.value == [] {
        return Some(false);
      }
      return Some(vm.value == attachment.value);
    }
  }

  function Acts(p: Pid, ok: Answers, listing: seq<VolumeId>, k: nat): seq<Event> {
    if k == 0 then [] else Acts(p, ok, listing, k - 1) + [Act(p, ok(k - 1), listing, None)]
  }

  /** The step that a process takes when it acts alone. */
  lemma Alone(s: System, p: Pid, ok: Answers, listing: seq<VolumeId>, k: nat)
    requires IsRun(s, Acts(p, ok, listing, k)) && IsPossible(Exec(s, Acts(p, ok, listing, k)), Act(p, ok(k), listing, None))
    ensures IsRun(s, Acts(p, ok, listing, k + 1))
    ensures Exec(s, Acts(p, ok, listing, k + 1)) == Step(Exec(s, Acts(p, ok, listing, k)), Act(p, ok(k), listing, None))
  {
    hide Step, IsPossible;
    var es := Acts(p, ok, listing, k + 1);
    assert es[..|es| - 1] == Acts(p, ok, listing, k);
  }

  /** The sequential operation is the run of the steps of one process without interference. */
  lemma AttachAloneIsARun(s: System, p: Pid, ok: Answers)
    requires p in s.procs && s.procs[p].task.Attach? && s.procs[p].pc.Begin?
    ensures exists k :: IsRun(s, Acts(p, ok, [], k)) && p in Exec(s, Acts(p, ok, [], k)).procs
              && var t, task := Exec(s, Acts(p, ok, [], k)), s.procs[p].task;
                 var (cloud, stage) := AttachAlone(s.cloud, s.servers, task.volume, task.name, task.node, ok);
                 t.cloud == cloud && t.procs[p].pc == Finished(stage)
  {
    hide IsRun, Exec, Acts;
    AloneStart(s, p, ok, []);
    var k := 0;
    while k < 5 && !Exec(s, Acts(p, ok, [], k)).procs[p].pc.Finished?
      invariant 0 <= k <= 5 && IsRun(s, Acts(p, ok, [], k)) && p in Exec(s, Acts(p, ok, [], k)).procs
      invariant var t := Exec(s, Acts(p, ok, [], k));
                AttachProgress(s, t, p, ok, k)
    {
      Alone(s, p, ok, [], k);
      AttachProgresses(s, Exec(s, Acts(p, ok, [], k)), p, ok, k);
      k := k + 1;
    }
  }

  lemma AloneStart(s: System, p: Pid, ok: Answers, listing: seq<VolumeId>)
    ensures IsRun(s, Acts(p, ok, listing, 0)) && Exec(s, Acts(p, ok, listing, 0)) == s
  {
  }

  /** After k undisturbed steps. */
  predicate AttachProgress(s: System, t: System, p: Pid, ok: Answers, k: nat)
    requires p in s.procs && s.procs[p].task.Attach?
  {
    var task := s.procs[p].task;
    var (cloud, stage) := AttachAlone(s.cloud, s.servers, task.volume, task.name, task.node, ok);
    && p in t.procs && t.procs[p].task == task && t.servers == s.servers
    && match t.procs[p].pc
       case Begin => k == 0 && t.cloud == s.cloud
       case GotVm(vm) => k == 1 && t.cloud == s.cloud && ok(0) && task.node in s.servers && vm == s.servers[task.node]
       case GotVolume(vm) =>
         && k == 2 && t.cloud == s.cloud && ok(0) && task.node in s.servers && vm == s.servers[task.node]
         && ok(1) && task.volume in s.cloud.volumes
       case Named(vm) =>
         && k == 3 && t.cloud == SetName(s.cloud, task.volume, task.name)
         && ok(0) && task.node in s.servers && vm == s.servers[task.node]
         && ok(1) && task.volume in s.cloud.volumes && ok(2)
       case Linked(vm) => k == 4 && stage == (if ok(4) then Complete else NoPath) && t.cloud == cloud
       case Finished(st) => st == stage && t.cloud == cloud
       case _ => false
  }

  lemma AttachProgresses(s: System, t: System, p: Pid, ok: Answers, k: nat)
    requires p in s.procs && s.procs[p].task.Attach? && AttachProgress(s, t, p, ok, k) && !t.procs[p].pc.Finished?
    ensures AttachProgress(s, Step(t, Act(p, ok(k), [], None)), p, ok, k + 1)
  {
  }

  predicate DetachProgress(s: System, t: System, p: Pid, ok: Answers, listing: seq<VolumeId>, k: nat)
    requires p in s.procs && s.procs[p].task.Detach?
  {
    var task := s.procs[p].task;
    var (cloud, stage) := DetachAlone(s.cloud, s.servers, task.node, listing, ok);
    && p in t.procs && t.procs[p].task == task && t.servers == s.servers
    && match t.procs[p].pc
       case Begin => k == 0 && t == s
       case Resolved(v) => k == 1 && t.cloud == s.cloud && ok(0) && |listing| == 1 && v == listing[0]
       case Located(v, vm) =>
         && k == 2 && t.cloud == s.cloud && ok(0) && |listing| == 1 && v == listing[0]
         && ok(1) && task.node in s.servers && vm == s.servers[task.node]
       case Finished(st) => st == stage && t.cloud == cloud
       case _ => false
  }

  lemma DetachProgresses(s: System, t: System, p: Pid, ok: Answers, listing: seq<VolumeId>, k: nat)
    requires p in s.procs && s.procs[p].task.Detach?
    requires DetachProgress(s, t, p, ok, listing, k) && !t.procs[p].pc.Finished?
    ensures DetachProgress(s, Step(t, Act(p, ok(k), listing, None)), p, ok, listing, k + 1)
  {
  }

  lemma DetachAloneIsARun(s: System, p: Pid, ok: Answers, listing: seq<VolumeId>)
    requires p in s.procs && s.procs[p].task.Detach? && s.procs[p].pc.Begin?
    requires IsListing(s.cloud, s.procs[p].task.name, listing)
    ensures exists k :: IsRun(s, Acts(p, ok, listing, k)) && p in Exec(s, Acts(p, ok, listing, k)).procs
              && var t := Exec(s, Acts(p, ok, listing, k));
                 var (cloud, stage) := DetachAlone(s.cloud, s.servers, s.procs[p].task.node, listing, ok);
                 t.cloud == cloud && t.procs[p].pc == Finished(stage)
  {
    hide IsRun, Exec, Acts, IsListing;
    AloneStart(s, p, ok, listing);
    var k := 0;
    while k < 3 && !Exec(s, Acts(p, ok, listing, k)).procs[p].pc.Finished?
      invariant 0 <= k <= 3 && IsRun(s, Acts(p, ok, listing, k)) && p in Exec(s, Acts(p, ok, listing, k)).procs
      invariant var t := Exec(s, Acts(p, ok, listing, k));
                DetachProgress(s, t, p, ok, listing, k)
    {
      Alone(s, p, ok, listing, k);
      DetachProgresses(s, Exec(s, Acts(p, ok, listing, k)), p, ok, listing, k);
      k := k + 1;
    }
  }

  /** A complete attach followed by a detach by name on the same node, every call of which works: the
      detach completes if and only if no other volume carries the name, and then the attachment
      relation is what it was, without the pair; otherwise the detach changes nothing. */
  lemma DetachUndoesAttach(c: Cloud, servers: map<NodeName, Vm>, volume: VolumeId, name: string, node: NodeName,
                           ok: Answers, listing: seq<VolumeId>, works: Answers)
    requires AttachAlone(c, servers, volume, name, node, ok).1 == Complete
    requires IsListing(AttachAlone(c, servers, volume, name, node, ok).0, name, listing)
    requires works(0) && works(1) && works(2)
    ensures var c1 := AttachAlone(c, servers, volume, name, node, ok).0;
            var (c2, stage) := DetachAlone(c1, servers, node, listing, works);
            var alone := forall w :: w in c.names && c.names[w] == name ==> w == volume;
            && (stage == Complete <==> alone)
            && c2.names == c.names[volume := name] && c2.volumes == c.volumes
            && c2.attached == (if alone then c.attached - {(volume, servers[node])}
                               else c.attached + {(volume, servers[node])})
  {
    var c1 := AttachAlone(c, servers, volume, name, node, ok).0;
    assert volume in listing;
    var i :| 0 <= i < |listing| && listing[i] == volume;
    if forall w :: w in c.names && c.names[w] == name ==> w == volume {
      forall j | 0 <= j < |listing| ensures listing[j] == volume {
        assert listing[j] in listing;
      }
      var first, last := listing[0], listing[|listing| - 1];
    } else {
      var w :| w in c.names && c.names[w] == name && w != volume;
      assert w in listing;
      var j :| 0 <= j < |listing| && listing[j] == w;
    }
  }
}
