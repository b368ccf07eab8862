/**
 * Two installs of different Java releases at once (java.py, install and
 * _sweep).  Installs run on threads; each drops the leftovers of killed agents
 * first, but only if it finds itself the sole install running.  The test is
 * made under the lock and the directory is listed after the lock is released.
 */
module JavaSweeps {
  import opened Options

  datatype Id = Id(hex: string)

  datatype Kind = Download | Staging | Old

  /** One dot-name in the managed directory; the tag says whose it is. */
  datatype DotName = DotName(tag: Id, kind: Kind)

  /** Where an install stands in its sweep. */
  datatype Pc = Entered | MaySweep | Sweeping(names: set<DotName>) | Working | Done

  datatype Install = Install(feature: nat, pc: Pc)

  /** `lost` records the names a sweep took from an install that was using them. */
  datatype State = State(
    installs: map<Id, Install>, installing: set<nat>, present: set<DotName>, usedTags: set<Id>, lost: set<DotName>)

  datatype Act =
    | Enter(tag: Id, feature: nat)     // refused if the release is already being installed
    | Check(tag: Id)                   // under the lock: is this the only one?
    | List(tag: Id)
    | Drop(tag: Id, name: DotName)
    | SweepEnds(tag: Id)
    | Make(tag: Id, kind: Kind)
    | Leave(tag: Id)                   // finished or failed; its own names are removed

  predicate At(s: State, tag: Id, pc: Pc) {
    tag in s.installs && s.installs[tag].pc == pc
  }

  predicate Active(s: State, tag: Id) {
    tag in s.installs && !s.installs[tag].pc.Done?
  }

  function Move(s: State, tag: Id, pc: Pc): State
    requires tag in s.installs
  {
    s.(installs := s.installs[tag := s.installs[tag].(pc := pc)])
  }

  function EnterStep(s: State, tag: Id, feature: nat): State {
    if tag in s.usedTags || feature in s.installing then s
    else s.(installs := s.installs[tag := Install(feature, Entered)], installing := s.installing + {feature},
            usedTags := s.usedTags + {tag})
  }

  function DropStep(s: State, tag: Id, name: DotName): State {
    if tag in s.installs && s.installs[tag].pc.Sweeping? && name in s.installs[tag].pc.names then
      Move(s, tag, Sweeping(s.installs[tag].pc.names - {name})).(
        present := s.present - {name},
        lost := if name in s.present && name.tag != tag && Active(s, name.tag) then s.lost + {name} else s.lost)
    else s
  }

  function LeaveStep(s: State, tag: Id): State {
    if Active(s, tag) then
      Move(s, tag, Done).(installing := s.installing - {s.installs[tag].feature},
                          present := set n | n in s.present && n.tag != tag)
    else s
  }

  function Step(s: State, a: Act): State {
    match a
    case Enter(tag, feature) => EnterStep(s, tag, feature)
    case Check(tag) =>
      if At(s, tag, Entered) then Move(s, tag, if |s.installing| > 1 then Working else MaySweep) else s
    case List(tag) => if At(s, tag, MaySweep) then Move(s, tag, Sweeping(s.present)) else s
    case Drop(tag, name) => DropStep(s, tag, name)
    case SweepEnds(tag) =>
      if tag in s.installs && s.installs[tag].pc.Sweeping? then Move(s, tag, Working) else s
    case Make(tag, kind) => if At(s, tag, Working) then s.(present := s.present + {DotName(tag, kind)}) else s
    case Leave(tag) => LeaveStep(s, tag)
  }

  function Run(s: State, acts: seq<Act>): State
    decreases |acts|
  {
    if acts == [] then s else Run(Step(s, acts[0]), acts[1..])
  }

  /** The releases being installed are those of the active installs, one each. */
  ghost predicate Locked(s: State) {
    && (forall t | t in s.installs :: t in s.usedTags)
    && (forall n | n in s.present :: n.tag in s.usedTags)
    && (forall t | Active(s, t) :: s.installs[t].feature in s.installing)
    && (forall t, u | Active(s, t) && Active(s, u) && t != u :: s.installs[t].feature != s.installs[u].feature)
    && (forall n | n in s.present && n.tag in s.installs :: Active(s, n.tag))
    && (forall t | t in s.installs && s.installs[t].pc.Sweeping? ::
          forall n | n in s.installs[t].pc.names :: n.tag in s.usedTags)
  }

  /** An install about to list is alone, and what one has listed belongs to no other active one. */
  ghost predicate Alone(s: State) {
    && (forall t, u | At(s, t, MaySweep) && Active(s, u) :: t == u)
    && (forall t | t in s.installs && s.installs[t].pc.Sweeping? ::
          forall n | n in s.installs[t].pc.names && Active(s, n.tag) :: n.tag == t)
  }

  /** No install enters between another's test and its listing. */
  ghost predicate NoOvertaking(s: State, acts: seq<Act>)
    decreases |acts|
  {
    acts != [] ==>
      && (acts[0].Enter? ==> forall t :: !At(s, t, MaySweep))
      && NoOvertaking(Step(s, acts[0]), acts[1..])
  }

  lemma SoleIsAlone(s: State, tag: Id)
    requires Locked(s) && Active(s, tag) && |s.installing| <= 1
    ensures forall u | Active(s, u) :: u == tag
  {
    forall u | Active(s, u) ensures u == tag {
      var f, g := s.installs[tag].feature, s.installs[u].feature;
      if f != g {
        assert {f, g} <= s.installing;
        SubsetSize({f, g}, s.installing);
      }
    }
  }

  lemma {:induction false} SubsetSize(a: set<nat>, b: set<nat>)
    requires a <= b
    ensures |a| <= |b|
  {
    assert b == a + (b - a);
  }

  lemma StepLocked(s: State, a: Act)
    requires Locked(s)
    ensures Locked(Step(s, a))
  {
  }

  lemma StepAlone(s: State, a: Act)
    requires Locked(s) && Alone(s) && (a.Enter? ==> forall t :: !At(s, t, MaySweep))
    ensures Alone(Step(s, a)) && Step(s, a).lost == s.lost
  {
    var t := Step(s, a);
    forall x, u | At(t, x, MaySweep) && Active(t, u) ensures x == u {
      if At(s, x, MaySweep) {
        assert !a.Enter?;
        assert Active(s, u);
      } else {
        SoleIsAlone(s, x);
        assert Active(s, u);
      }
    }
  }

  /** While no install enters between another's test and its listing, a sweep never takes a name
      that an install is using. */
  lemma {:induction false} SweepsAreSafe(s: State, acts: seq<Act>)
    requires Locked(s) && Alone(s) && NoOvertaking(s, acts)
    ensures Run(s, acts).lost == s.lost
    decreases |acts|
  {
    hide Locked; hide Alone; hide Step;
    if acts != [] {
      StepLocked(s, acts[0]);
      StepAlone(s, acts[0]);
      SweepsAreSafe(Step(s, acts[0]), acts[1..]);
    }
  }

  /** Every release marked as being installed is that of an active install. */
  ghost predicate Marked(s: State) {
    forall f | f in s.installing :: exists t :: Active(s, t) && s.installs[t].feature == f
  }

  lemma StepMarked(s: State, a: Act)
    requires Locked(s) && Marked(s)
    ensures Marked(Step(s, a))
  {
    var u := Step(s, a);
    forall f | f in u.installing ensures exists t :: Active(u, t) && u.installs[t].feature == f {
      if f in s.installing {
        var t :| Active(s, t) && s.installs[t].feature == f;
        assert Active(u, t) && u.installs[t].feature == f;
      } else {
        assert Active(u, a.tag) && u.installs[a.tag].feature == f;
      }
    }
  }

  lemma {:induction false} RunMarked(s: State, acts: seq<Act>)
    requires Locked(s) && Marked(s)
    ensures Locked(Run(s, acts)) && Marked(Run(s, acts))
    decreases |acts|
  {
    hide Locked; hide Marked; hide Step;
    if acts != [] {
      StepLocked(s, acts[0]);
      StepMarked(s, acts[0]);
      RunMarked(Step(s, acts[0]), acts[1..]);
    }
  }

  /** The test lets an install sweep exactly if no other is active. */
  lemma MaySweepExactly(s: State, tag: Id)
    requires Locked(s) && Marked(s) && At(s, tag, Entered)
    ensures At(Step(s, Check(tag)), tag, MaySweep) <==> forall u | Active(s, u) :: u == tag
    ensures !At(Step(s, Check(tag)), tag, MaySweep) ==> At(Step(s, Check(tag)), tag, Working)
  {
    assert Active(s, tag);
    if forall u | Active(s, u) :: u == tag {
      assert s.installing <= {s.installs[tag].feature};
      SubsetSize(s.installing, {s.installs[tag].feature});
    } else if |s.installing| <= 1 {
      SoleIsAlone(s, tag);
    }
  }

  lemma {:induction false} DropsAll(s: State, tag: Id, names: set<DotName>) returns (acts: seq<Act>)
    requires At(s, tag, Sweeping(names))
    ensures At(Run(s, acts), tag, Sweeping({})) && Run(s, acts).present == s.present - names
    decreases names
  {
    acts := [];
    if names != {} {
      var name :| name in names;
      var t := Step(s, Drop(tag, name));
      assert At(t, tag, Sweeping(names - {name})) && t.present == s.present - {name};
      hide Step;
      var rest := DropsAll(t, tag, names - {name});
      acts := [Drop(tag, name)] + rest;
      assert acts[1..] == rest;
    }
  }

  lemma RunOne(s: State, a: Act)
    ensures Run(s, [a]) == Step(s, a)
  {
    assert [a][1..] == [];
  }

  lemma {:induction false} RunAppend(s: State, a: seq<Act>, b: seq<Act>)
    ensures Run(s, a + b) == Run(Run(s, a), b)
    decreases |a|
  {
    hide Step;
    if a == [] {
      assert a + b == b;
    } else {
      assert (a + b)[1..] == a[1..] + b;
      RunAppend(Step(s, a[0]), a[1..], b);
    }
  }

  /** An install that may sweep can drop every leftover there is, and go on to its work. */
  lemma SweepCanClear(s: State, tag: Id) returns (acts: seq<Act>)
    requires At(s, tag, MaySweep)
    ensures At(Run(s, acts), tag, Working) && Run(s, acts).present == {}
  {
    var listed := Step(s, List(tag));
    assert At(listed, tag, Sweeping(s.present)) && listed.present == s.present;
    var drops := DropsAll(listed, tag, s.present);
    var swept := Run(listed, drops);
    assert At(Step(swept, SweepEnds(tag)), tag, Working) && Step(swept, SweepEnds(tag)).present == swept.present;
    hide Step;
    acts := [List(tag)] + (drops + [SweepEnds(tag)]);
    RunOne(s, List(tag));
    RunOne(swept, SweepEnds(tag));
    RunAppend(listed, drops, [SweepEnds(tag)]);
    RunAppend(s, [List(tag)], drops + [SweepEnds(tag)]);
  }

  /** An install that ends takes exactly its own names with it, and its release can be installed again. */
  lemma LeavingFrees(s: State, tag: Id, again: Id)
    requires Locked(s) && Active(s, tag) && again !in s.usedTags
    ensures var t := Step(s, Leave(tag));
            && !Active(t, tag) && t.lost == s.lost && t.installing == s.installing - {s.installs[tag].feature}
            && (forall n :: n in t.present <==> n in s.present && n.tag != tag)
            && At(Step(t, Enter(again, s.installs[tag].feature)), again, Entered)
  {
  }

  function Overtake(sweeper: Id, tag: Id, feature: nat): seq<Act> {
    [Enter(tag, feature), Check(tag), Make(tag, Old), List(sweeper), Drop(sweeper, DotName(tag, Old))]
  }

  lemma EnterBeside(s: State, sweeper: Id, tag: Id, feature: nat)
    requires Locked(s) && At(s, sweeper, MaySweep) && tag !in s.usedTags && feature !in s.installing
    ensures var t := Step(Step(s, Enter(tag, feature)), Check(tag));
            At(t, tag, Working) && At(t, sweeper, MaySweep) && tag != sweeper
  {
    assert Active(s, sweeper);
    var s1 := Step(s, Enter(tag, feature));
    SubsetSize({s.installs[sweeper].feature, feature}, s1.installing);
  }

  lemma DropInUse(s: State, sweeper: Id, tag: Id)
    requires At(s, tag, Working) && At(s, sweeper, MaySweep) && tag != sweeper
    ensures var name := DotName(tag, Old);
            name in Step(Step(Step(s, Make(tag, Old)), List(sweeper)), Drop(sweeper, name)).lost
  {
    var name := DotName(tag, Old);
    var s1 := Step(s, Make(tag, Old));
    var s2 := Step(s1, List(sweeper));
    assert name in s1.present && name in s2.installs[sweeper].pc.names && Active(s2, tag);
  }

  /** And whenever one does enter there, some continuation loses a name in use: even the previous
      runtime that the new install has just moved aside. */
  lemma OvertakingCanLose(s: State, sweeper: Id, tag: Id, feature: nat)
    requires Locked(s) && At(s, sweeper, MaySweep) && tag !in s.usedTags && feature !in s.installing
    ensures DotName(tag, Old) in Run(s, Overtake(sweeper, tag, feature)).lost
  {
    hide Step;
    EnterBeside(s, sweeper, tag, feature);
    DropInUse(Step(Step(s, Enter(tag, feature)), Check(tag)), sweeper, tag);
    RunFive(s, Enter(tag, feature), Check(tag), Make(tag, Old), List(sweeper), Drop(sweeper, DotName(tag, Old)));
  }

  lemma RunFive(s: State, a: Act, b: Act, c: Act, d: Act, e: Act)
    ensures Run(s, [a, b, c, d, e]) == Step(Step(Step(Step(Step(s, a), b), c), d), e)
  {
    hide Step;
    var s1 := Step(s, a);
    var s2 := Step(s1, b);
    var s3 := Step(s2, c);
    var s4 := Step(s3, d);
    assert [a, b, c, d, e][1..] == [b, c, d, e] && [b, c, d, e][1..] == [c, d, e];
    assert [c, d, e][1..] == [d, e] && [d, e][1..] == [e] && [e][1..] == [];
    assert Run(s4, [e]) == Step(s4, e);
    assert Run(s3, [d, e]) == Run(s4, [e]);
    assert Run(s2, [c, d, e]) == Run(s3, [d, e]);
    assert Run(s1, [b, c, d, e]) == Run(s2, [c, d, e]);
  }
}
