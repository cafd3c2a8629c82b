/** The provisioner and the node drivers on one cloud: `Provision` and `Delete` interleave with the calls of
    `attach`, `detach` and `isAttached` of any number of driver processes, which begin at any time. */
module Lifecycle {
  import P = Provision
  import A = AttachDetach

  datatype World = World(prov: P.State, sys: A.System)

  /** A call of the provisioner, the begin of a driver process, or the next call of one. */
  datatype Event =
    | Provisioner(call: P.Event)
    | Begin(p: A.Pid, task: A.Task)
    | Driver(act: A.Event)

  /** The cloud with these volumes: what it knew about others is gone. */
  function WithVolumes(c: A.Cloud, volumes: set<string>): A.Cloud {
    A.Cloud(volumes, map v | v in c.names && v in volumes :: c.names[v], set x | x in c.attached && x.0 in volumes)
  }

  /** The persistent volume of that name is live and stands for the volume. */
  predicate LeadsTo(s: P.State, name: string, v: string) {
    name in s.live && s.live[name] == v
  }

  /** Kubernetes attaches live persistent volumes. */
  ghost predicate IsPossible(w: World, e: Event) {
    match e
    case Provisioner(call) => P.IsPossible(w.prov, call)
    case Begin(p, task) => p !in w.sys.procs && (task.Attach? ==> LeadsTo(w.prov, task.name, task.volume))
    case Driver(act) => A.IsPossible(w.sys, act)
  }

  function Step(w: World, e: Event): World
    requires e.Driver? ==> A.IsActing(w.sys, e.act)
  {
    match e
    case Provisioner(call) =>
      var s := P.Step(w.prov, call);
      World(s, w.sys.(cloud := WithVolumes(w.sys.cloud, s.volumes)))
    case Begin(p, task) => w.(sys := w.sys.(procs := w.sys.procs[p := A.Process(task, A.Pc.Begin)]))
    case Driver(act) => w.(sys := A.Step(w.sys, act))
  }

  ghost predicate IsRun(w: World, es: seq<Event>)
    decreases |es|, 1
  {
    es == [] || (IsRun(w, es[..|es| - 1]) && IsPossible(Exec(w, es[..|es| - 1]), es[|es| - 1]))
  }

  ghost function Exec(w: World, es: seq<Event>): World
    requires IsRun(w, es)
    decreases |es|, 2
  {
    if es == [] then w else Step(Exec(w, es[..|es| - 1]), es[|es| - 1])
  }

  /** No persistent volume and no driver process yet; the cloud may have volumes and attachments, but no
      names. */
  predicate IsInitial(w: World) {
    && P.IsInitial(w.prov) && w.sys.cloud.volumes == w.prov.volumes
    && w.sys.cloud.names == map[] && w.sys.procs == map[]
    && forall x :: x in w.sys.cloud.attached ==> x.0 in w.sys.cloud.volumes
  }

  // ----- what every step keeps

  /** The cloud has handed out the volume, and while it exists the name leads to it. */
  predicate IsBound(s: P.State, v: string, name: string) {
    v in s.used && (v in s.volumes ==> LeadsTo(s, name, v))
  }

  predicate ProcessOk(s: P.State, sys: A.System, p: A.Pid)
    requires p in sys.procs
  {
    var proc := sys.procs[p];
    && A.IsOnItsWay(sys, p)
    && (proc.task.Attach? ==> IsBound(s, proc.task.volume, proc.task.name))
    && (A.HasNamed(proc) && proc.task.volume in s.volumes ==> A.IsStored(sys.cloud, proc.task.volume, proc.task.name))
    && (proc.pc.Resolved? || proc.pc.Located? ==> IsBound(s, proc.pc.volume, proc.task.name))
  }

  /** The two views of the cloud agree, and stored names and attachments belong to existing volumes; a name
      is stored for the volume it leads to. */
  ghost predicate CloudOk(s: P.State, c: A.Cloud) {
    && c.volumes == s.volumes
    && (forall v :: v in c.names ==> v in s.volumes && LeadsTo(s, c.names[v], v))
    && (forall x :: x in c.attached ==> x.0 in s.volumes)
  }

  ghost predicate Inv(w: World) {
    && P.IsSound(w.prov) && CloudOk(w.prov, w.sys.cloud)
    && forall p :: p in w.sys.procs ==> ProcessOk(w.prov, w.sys, p)
  }

  /** A call of the provisioner, a deletion included, binds no volume to another name: IDs are not reused. */
  lemma CallKeepsBound(s: P.State, call: P.Event, v: string, name: string)
    requires P.IsSound(s) && P.IsPossible(s, call) && IsBound(s, v, name)
    ensures IsBound(P.Step(s, call), v, name)
    ensures v in P.Step(s, call).volumes ==> v in s.volumes
  {
  }

  lemma CallKeepsCloud(s: P.State, c: A.Cloud, call: P.Event)
    requires P.IsSound(s) && P.IsPossible(s, call) && CloudOk(s, c)
    ensures CloudOk(P.Step(s, call), WithVolumes(c, P.Step(s, call).volumes))
  {
    var t := P.Step(s, call);
    forall v | v in c.names && v in t.volumes ensures LeadsTo(t, c.names[v], v) {
      CallKeepsBound(s, call, v, c.names[v]);
    }
  }

  lemma CallKeepsProcess(w: World, call: P.Event, p: A.Pid)
    requires P.IsSound(w.prov) && P.IsPossible(w.prov, call) && p in w.sys.procs && ProcessOk(w.prov, w.sys, p)
    ensures ProcessOk(Step(w, Provisioner(call)).prov, Step(w, Provisioner(call)).sys, p)
  {
    var proc := w.sys.procs[p];
    if proc.task.Attach? {
      CallKeepsBound(w.prov, call, proc.task.volume, proc.task.name);
    }
    if proc.pc.Resolved? || proc.pc.Located? {
      CallKeepsBound(w.prov, call, proc.pc.volume, proc.task.name);
    }
    hide P.Step, P.IsPossible, P.IsSound, IsBound;
  }

  lemma ActKeepsCloud(s: P.State, sys: A.System, e: A.Event)
    requires CloudOk(s, sys.cloud) && A.IsActing(sys, e) && ProcessOk(s, sys, e.p)
    ensures CloudOk(s, A.Step(sys, e).cloud)
  {
  }

  /** A stored name is not overwritten by another one: two names that lead to one volume are the same. */
  lemma ActKeepsStored(s: P.State, sys: A.System, e: A.Event, v: string, name: string)
    requires P.IsSound(s) && CloudOk(s, sys.cloud) && A.IsActing(sys, e) && ProcessOk(s, sys, e.p)
    requires A.IsStored(sys.cloud, v, name)
    ensures A.IsStored(A.Step(sys, e).cloud, v, name)
  {
  }

  lemma ActorStaysOk(s: P.State, sys: A.System, e: A.Event)
    requires P.IsSound(s) && CloudOk(s, sys.cloud) && A.IsPossible(sys, e) && ProcessOk(s, sys, e.p)
    ensures e.p in A.Step(sys, e).procs && ProcessOk(s, A.Step(sys, e), e.p)
  {
    A.ActorKeepsItsWay(sys, e);
    if sys.procs[e.p].task.Detach? && sys.procs[e.p].pc.Begin? && |e.listing| == 1 {
      assert e.listing[0] in e.listing;
    }
    hide A.IsOnItsWay;
  }

  lemma OthersStayOk(s: P.State, sys: A.System, e: A.Event, p: A.Pid)
    requires P.IsSound(s) && CloudOk(s, sys.cloud) && A.IsPossible(sys, e) && ProcessOk(s, sys, e.p)
    requires p in sys.procs && p != e.p && ProcessOk(s, sys, p)
    ensures p in A.Step(sys, e).procs && ProcessOk(s, A.Step(sys, e), p)
  {
    A.OthersUntouched(sys, e, p);
    var proc := sys.procs[p];
    if A.HasNamed(proc) && proc.task.volume in s.volumes {
      ActKeepsStored(s, sys, e, proc.task.volume, proc.task.name);
    }
    hide A.Step, A.IsStored, A.HasNamed, IsBound, P.IsSound, CloudOk, A.IsPossible;
  }

  lemma StepKeepsInv(w: World, e: Event)
    requires Inv(w) && IsPossible(w, e)
    ensures Inv(Step(w, e))
  {
    hide ProcessOk, CloudOk, A.Step, P.Step, P.IsSound, P.IsPossible;
    match e
    case Provisioner(call) =>
      P.StepKeepsSound(w.prov, call);
      CallKeepsCloud(w.prov, w.sys.cloud, call);
      forall p | p in w.sys.procs ensures ProcessOk(Step(w, e).prov, Step(w, e).sys, p) {
        CallKeepsProcess(w, call, p);
      }
    case Begin(p, task) =>
      forall q | q in Step(w, e).sys.procs ensures ProcessOk(Step(w, e).prov, Step(w, e).sys, q) {
        BeginKeepsProcess(w, p, task, q);
      }
    case Driver(act) =>
      A.SameProcesses(w.sys, act);
      ActKeepsCloud(w.prov, w.sys, act);
      ActorStaysOk(w.prov, w.sys, act);
      forall p | p in w.sys.procs && p != act.p ensures ProcessOk(w.prov, A.Step(w.sys, act), p) {
        OthersStayOk(w.prov, w.sys, act, p);
      }
  }

  lemma BeginKeepsProcess(w: World, p: A.Pid, task: A.Task, q: A.Pid)
    requires Inv(w) && IsPossible(w, Begin(p, task))
    requires q in Step(w, Begin(p, task)).sys.procs
    ensures ProcessOk(w.prov, Step(w, Begin(p, task)).sys, q)
  {
    if q == p {
      assert task.Attach? ==> task.volume in w.prov.volumes;
    } else {
      assert ProcessOk(w.prov, w.sys, q);
    }
  }

  lemma {:induction false} RunKeepsInv(w0: World, es: seq<Event>)
    requires IsInitial(w0) && IsRun(w0, es)
    ensures Inv(Exec(w0, es))
    decreases |es|
  {
    if es == [] {
    } else {
      hide Inv, IsInitial, Step, IsPossible;
      RunKeepsInv(w0, es[..|es| - 1]);
      assert Inv(Exec(w0, es[..|es| - 1]));
      StepKeepsInv(Exec(w0, es[..|es| - 1]), es[|es| - 1]);
    }
  }

  // ----- main results: in every combined run

  /** The correspondence that detach relies on holds by itself: a query for a name lists exactly the volume
      of the live persistent volume of that name, if its name has been stored, and nothing otherwise; a
      volume that was deleted, or lost, or provisioned for an earlier persistent volume of the same name is
      never listed. */
  lemma NameLeadsToItsVolume(w0: World, es: seq<Event>, name: string, listing: seq<string>)
    requires IsInitial(w0) && IsRun(w0, es) && A.IsListing(Exec(w0, es).sys.cloud, name, listing)
    ensures var w := Exec(w0, es);
            listing == if name in w.prov.live && w.prov.live[name] in w.sys.cloud.names then [w.prov.live[name]] else []
  {
    RunKeepsInv(w0, es);
    var w := Exec(w0, es);
    hide IsRun, Exec;
    if name in w.prov.live && w.prov.live[name] in w.sys.cloud.names {
      A.OnlyMatch(w.sys.cloud, name, listing, w.prov.live[name]);
    } else {
      A.NoMatch(w.sys.cloud, name, listing);
    }
  }

  /** So a detach by name, when its query works, goes on with exactly the volume that is live under the name
      at that moment, and fails exactly when there is none or its name was not stored. */
  lemma DetachResolvesTheLiveVolume(w0: World, es: seq<Event>, act: A.Event)
    requires IsInitial(w0) && IsRun(w0, es) && IsPossible(Exec(w0, es), Driver(act))
    requires Exec(w0, es).sys.procs[act.p].task.Detach? && Exec(w0, es).sys.procs[act.p].pc.Begin?
    ensures var w := Exec(w0, es);
            var name := w.sys.procs[act.p].task.name;
            A.Step(w.sys, act).procs[act.p].pc ==
            if act.ok && name in w.prov.live && w.prov.live[name] in w.sys.cloud.names
            then A.Resolved(w.prov.live[name]) else A.Finished(A.NoVolume)
  {
    NameLeadsToItsVolume(w0, es, Exec(w0, es).sys.procs[act.p].task.name, act.listing);
    hide IsRun, Exec;
  }

  /** Once an attach has stored the name, and as long as its volume exists, the persistent volume of that name
      is live, stands for this volume, and a query finds it. */
  lemma DetachFindsTheProvisionedVolume(w0: World, es: seq<Event>, p: A.Pid, listing: seq<string>)
    requires IsInitial(w0) && IsRun(w0, es)
    requires p in Exec(w0, es).sys.procs && A.HasNamed(Exec(w0, es).sys.procs[p])
    requires Exec(w0, es).sys.procs[p].task.volume in Exec(w0, es).prov.volumes
    requires A.IsListing(Exec(w0, es).sys.cloud, Exec(w0, es).sys.procs[p].task.name, listing)
    ensures var w := Exec(w0, es);
            LeadsTo(w.prov, w.sys.procs[p].task.name, w.sys.procs[p].task.volume)
            && listing == [w.sys.procs[p].task.volume]
  {
    RunKeepsInv(w0, es);
    var w := Exec(w0, es);
    assert ProcessOk(w.prov, w.sys, p);
    NameLeadsToItsVolume(w0, es, w.sys.procs[p].task.name, listing);
  }

  /** Whatever happens between its calls, a deletion and a new persistent volume of the same name included, a
      detach removes no attachment but that of the volume live under its name on the VM of its node. */
  lemma DetachTouchesItsVolumeOnly(w0: World, es: seq<Event>, act: A.Event)
    requires IsInitial(w0) && IsRun(w0, es) && IsPossible(Exec(w0, es), Driver(act))
    requires Exec(w0, es).sys.procs[act.p].task.Detach?
    ensures var w := Exec(w0, es);
            var c := A.Step(w.sys, act).cloud;
            var Detach(name, node) := w.sys.procs[act.p].task;
            && c.volumes == w.sys.cloud.volumes && c.names == w.sys.cloud.names && c.attached <= w.sys.cloud.attached
            && forall v, vm :: (v, vm) in w.sys.cloud.attached && (v, vm) !in c.attached ==>
                 LeadsTo(w.prov, name, v) && node in w.sys.servers && vm == w.sys.servers[node]
  {
    RunKeepsInv(w0, es);
    var w := Exec(w0, es);
    hide IsRun, Exec;
    assert ProcessOk(w.prov, w.sys, act.p);
  }
}
