/**
 One skill change request as a machine whose steps are the store calls of the workflow and its
 handler. An attempt may stop between any two, and others may write assets in between.
 */
module SkillChangeApproval {
  import opened Optional

  type Config = string

  datatype Agent = Agent(skillNames: seq<string>, rest: string)

  /** What the request asks for, and the policy of the instance. `edit` fails where an operation does. */
  datatype Setting = Setting(id: string, skillName: string, creation: bool, initial: Config,
      edit: Config -> Option<Config>, changesEnabled: bool, creationAllowed: bool)

  datatype Operation = Create | Update | Revert | Delete

  datatype SkillRevision = SkillRevision(number: nat, operation: Operation, config: Option<Config>,
      origin: Option<string>, version: nat)

  datatype AgentRevision = AgentRevision(config: Option<Agent>, version: nat)

  /** The revisions of the one skill and the one agent the request names, and the version of the whole set. */
  datatype Assets = Assets(version: nat, skill: seq<SkillRevision>, agent: seq<AgentRevision>)

  datatype Refusal = Rejected | ChangesRequested | Superseded | Withdrawn

  datatype Result = Result(revision: nat, version: nat)

  datatype Status = Pending | Approved(result: Result) | Refused(refusal: Refusal) | Reverted(result: Result)

  datatype Outcome = Approve(result: Result) | Refuse(refusal: Refusal) | Undo

  /** The next store call of an attempt, with what its earlier calls returned. */
  datatype Phase =
    | AskProduced
    | AskSkill
    | AskAgent(skill: Option<Config>)
    | TakeVersion
    | TakeSkill(version: nat)
    | TakeAgent(version: nat, skill: Option<Config>)
    | Look(version: nat, skill: Option<Config>, agent: Option<Agent>)
    | Write(version: nat, config: Config, agentConfig: Option<Agent>)
    | ReadBack
    | CheckNotApplied(refusal: Refusal)
    | UndoVersion
    | UndoAgent(version: nat)
    | UndoHistory(version: nat, agent: Option<Agent>)
    | UndoWrite(version: nat, restored: Option<Config>, agentConfig: Option<Agent>)
    | UndoReadBack
    | Finish(outcome: Outcome)

  /** `lock` is the attempt that holds the row of the request. */
  datatype State = State(assets: Assets, status: Status, lock: Option<nat>, attempts: map<nat, Phase>)

  datatype Work = Approving | Refusing(refusal: Refusal) | Undoing

  datatype Step =
    | Begin(attempt: nat, work: Work)
    | Go(attempt: nat)
    | Stop(attempt: nat)
    | LoseLock
    | OthersWrite(skill: seq<SkillRevision>, agent: seq<AgentRevision>)

  // ----- assets

  function ActiveSkill(h: seq<SkillRevision>): Option<Config> { if h == [] then None else h[|h| - 1].config }

  function ActiveAgent(h: seq<AgentRevision>): Option<Agent> { if h == [] then None else h[|h| - 1].config }

  function ChangedSkill(st: Setting, current: Option<Config>): Option<Config>
  {
    if st.creation then (if current.Some? then None else st.edit(st.initial))
    else if current.None? then None else st.edit(current.value)
  }

  /** `[...new Set(names)]` */
  function Unique(names: seq<string>): (r: seq<string>)
    ensures forall n :: n in r <==> n in names
  {
    if names == [] then []
    else
      var rest, last := Unique(names[..|names| - 1]), names[|names| - 1];
      assert names == names[..|names| - 1] + [last];
      if last in rest then rest else rest + [last]
  }

  function Without(names: seq<string>, name: string): (r: seq<string>)
    ensures forall n :: n in r <==> n in names && n != name
  {
    if names == [] then []
    else
      assert forall n :: n in names <==> n == names[0] || n in names[1..];
      (if names[0] == name then [] else [names[0]]) + Without(names[1..], name)
  }

  // ----- what becomes of an agent's skills

  predicate Distinct(names: seq<string>) { forall i, j :: 0 <= i < j < |names| ==> names[i] != names[j] }

  /** Where a name is met first. */
  function First(names: seq<string>, name: string): (r: nat)
    requires name in names
    ensures r < |names| && names[r] == name && forall i :: 0 <= i < r ==> names[i] != name
  {
    if names[0] == name then 0 else 1 + First(names[1..], name)
  }

  /** What is left of `all` when some of it is taken out. */
  predicate Subsequence(some: seq<string>, all: seq<string>)
  {
    some == []
        || (all != [] && if some[0] == all[0] then Subsequence(some[1..], all[1..]) else Subsequence(some, all[1..]))
  }

  /** Names that stand in the order in which `names` has them first. */
  predicate InOrderOf(names: seq<string>, some: seq<string>)
    requires forall n :: n in some ==> n in names
  {
    forall i, j :: 0 <= i < j < |some| ==> First(names, some[i]) < First(names, some[j])
  }

  /** The same agent, which names one skill more: each name once, in the order the names were in. */
  predicate NamesOneMore(st: Setting, agent: Agent, more: Agent)
  {
    var names := agent.skillNames + [st.skillName];
    && more.rest == agent.rest
    && Distinct(more.skillNames)
    && (forall n :: n in more.skillNames ==> n in names) && (forall n :: n in names ==> n in more.skillNames)
    && InOrderOf(names, more.skillNames)
    && (Distinct(names) ==> more.skillNames == names)
  }

  /** The same agent, which does not name the skill; every other name is where it was. */
  predicate NamesOneLess(st: Setting, agent: Agent, less: Agent)
  {
    && less.rest == agent.rest && st.skillName !in less.skillNames
    && Subsequence(less.skillNames, agent.skillNames)
    && |less.skillNames| == |agent.skillNames| - multiset(agent.skillNames)[st.skillName]
  }

  lemma {:induction false} UniqueInOrder(names: seq<string>)
    ensures Distinct(Unique(names)) && InOrderOf(names, Unique(names))
    ensures Distinct(names) ==> Unique(names) == names
  {
    if names != [] {
      var front, last := names[..|names| - 1], names[|names| - 1];
      assert names == front + [last];
      UniqueInOrder(front);
      OneMoreInOrder(front, last, Unique(front));
    }
  }

  lemma FirstStays(front: seq<string>, last: string, name: string)
    requires name in front
    ensures First(front + [last], name) == First(front, name)
  {
    hide First;
    assert (front + [last])[First(front, name)] == name;
  }

  lemma OneMoreInOrder(front: seq<string>, last: string, some: seq<string>)
    requires (forall n :: n in some ==> n in front) && InOrderOf(front, some)
    ensures InOrderOf(front + [last], some)
    ensures last !in front ==> InOrderOf(front + [last], some + [last])
  {
    hide First;
    forall i | 0 <= i < |some| ensures First(front + [last], some[i]) == First(front, some[i]) {
      FirstStays(front, last, some[i]);
    }
  }

  lemma {:induction false} WithoutIsLess(names: seq<string>, name: string)
    ensures Subsequence(Without(names, name), names)
    ensures |Without(names, name)| == |names| - multiset(names)[name]
  {
    if names != [] {
      var rest, all := Without(names[1..], name), Without(names, name);
      WithoutIsLess(names[1..], name);
      assert names == [names[0]] + names[1..];
      if names[0] == name {
        assert all == rest;
        assert rest != [] ==> rest[0] in rest;
      } else {
        assert all == [names[0]] + rest && all[1..] == rest;
      }
    }
  }

  lemma AgentGainsSkill(st: Setting, agent: Agent)
    ensures NamesOneMore(st, agent, WithSkill(st, agent))
  {
    UniqueInOrder(agent.skillNames + [st.skillName]);
  }

  lemma AgentLosesSkill(st: Setting, agent: Agent)
    ensures NamesOneLess(st, agent, WithoutSkill(st, agent))
  {
    WithoutIsLess(agent.skillNames, st.skillName);
  }

  function WithSkill(st: Setting, agent: Agent): Agent {
    agent.(skillNames := Unique(agent.skillNames + [st.skillName]))
  }

  function WithoutSkill(st: Setting, agent: Agent): Agent {
    agent.(skillNames := Without(agent.skillNames, st.skillName))
  }

  function AgentStored(assets: Assets, agentConfig: Option<Agent>): seq<AgentRevision>
  {
    if agentConfig.None? then assets.agent else assets.agent + [AgentRevision(agentConfig, assets.version + 1)]
  }

  function NextRevision(st: Setting, assets: Assets, operation: Operation, config: Option<Config>): SkillRevision
  {
    SkillRevision(|assets.skill| + 1, operation, config, Some(st.id), assets.version + 1)
  }

  /** One transaction of the asset store that upserts the skill. */
  function SkillStored(st: Setting, assets: Assets, config: Config, reverting: bool, agentConfig: Option<Agent>): Assets
  {
    var operation := if reverting then Revert else if ActiveSkill(assets.skill).Some? then Update else Create;
    Assets(assets.version + 1, assets.skill + [NextRevision(st, assets, operation, Some(config))],
        AgentStored(assets, agentConfig))
  }

  function SkillDeleted(st: Setting, assets: Assets, agentConfig: Option<Agent>): Assets
  {
    var skill := if ActiveSkill(assets.skill).None? then assets.skill
        else assets.skill + [NextRevision(st, assets, Delete, None)];
    Assets(assets.version + 1, skill, AgentStored(assets, agentConfig))
  }

  predicate IsUndo(operation: Operation) { operation.Revert? || operation.Delete? }

  /** A revision that applied the request, and one that took it back. */
  predicate Produced(st: Setting, r: SkillRevision) { r.origin == Some(st.id) && !IsUndo(r.operation) }

  predicate Undone(st: Setting, r: SkillRevision) { r.origin == Some(st.id) && IsUndo(r.operation) }

  function FirstProduced(st: Setting, h: seq<SkillRevision>): (r: Option<SkillRevision>)
    ensures r.Some? ==> r.value in h && Produced(st, r.value)
    ensures r.None? <==> forall k :: 0 <= k < |h| ==> !Produced(st, h[k])
  {
    if h == [] then None
    else if Produced(st, h[0]) then Some(h[0])
    else
      assert forall k :: 0 < k < |h| ==> h[k] == h[1..][k - 1];
      FirstProduced(st, h[1..])
  }

  function ResultOf(r: SkillRevision): Result { Result(r.number, r.version) }

  // ----- the handler, call by call

  predicate InScope(st: Setting, agent: Option<Agent>)
  {
    st.changesEnabled && agent.Some?
        && (if st.creation then st.creationAllowed else st.skillName in agent.value.skillNames)
  }

  predicate Stale(st: Setting, skill: Option<Config>, agent: Option<Agent>)
  {
    agent.None? || (!st.creation && st.skillName !in agent.value.skillNames) || ChangedSkill(st, skill).None?
  }

  /** What one call of an attempt leads to: an error ends the attempt. */
  datatype Reply = Error | Continue(phase: Phase, assets: Assets)

  function Call(st: Setting, assets: Assets, phase: Phase): Reply
    requires !phase.Finish?
  {
    match phase
    case AskProduced => Continue(if FirstProduced(st, assets.skill).Some? then TakeVersion else AskSkill, assets)
    case AskSkill => Continue(AskAgent(ActiveSkill(assets.skill)), assets)
    case AskAgent(skill) =>
      Continue(if Stale(st, skill, ActiveAgent(assets.agent)) then Finish(Refuse(Superseded)) else TakeVersion, assets)
    case TakeVersion => Continue(TakeSkill(assets.version), assets)
    case TakeSkill(version) => Continue(TakeAgent(version, ActiveSkill(assets.skill)), assets)
    case TakeAgent(version, skill) => Continue(Look(version, skill, ActiveAgent(assets.agent)), assets)
    case Look(version, skill, agent) =>
      var previous := FirstProduced(st, assets.skill);
      if previous.Some? then Continue(Finish(Approve(ResultOf(previous.value))), assets)
      else if !InScope(st, agent) || ChangedSkill(st, skill).None? then Error
      else Continue(Write(version, ChangedSkill(st, skill).value, if st.creation
          then Some(WithSkill(st, agent.value)) else None), assets)
    case Write(version, config, agentConfig) =>
      if version != assets.version then Error
          else Continue(ReadBack, SkillStored(st, assets, config, false, agentConfig))
    case ReadBack =>
      var revision := FirstProduced(st, assets.skill);
      if revision.None? then Error else Continue(Finish(Approve(ResultOf(revision.value))), assets)
    case CheckNotApplied(refusal) =>
      if FirstProduced(st, assets.skill).Some? then Error else Continue(Finish(Refuse(refusal)), assets)
    case UndoVersion => Continue(UndoAgent(assets.version), assets)
    case UndoAgent(version) => Continue(UndoHistory(version, ActiveAgent(assets.agent)), assets)
    case UndoHistory(version, agent) => UndoPlan(st, assets, version, agent)
    case UndoWrite(version, restored, agentConfig) =>
      if version != assets.version then Error
      else Continue(UndoReadBack, if restored.None? then SkillDeleted(st, assets, agentConfig)
                                  else SkillStored(st, assets, restored.value, true, agentConfig))
    case UndoReadBack => if assets.skill == [] then Error else Continue(Finish(Undo), assets)
  }

  /** The revert once the revisions of the skill are read. */
  function UndoPlan(st: Setting, assets: Assets, version: nat, agent: Option<Agent>): Reply
  {
    var h := assets.skill;
    var applied := FirstProduced(st, h);
    if applied.None? then Error
    else
      assert applied.value in h;
      var latest := h[|h| - 1];
      if Undone(st, latest) then Continue(Finish(Undo), assets)
      else if latest != applied.value then Error
      else if st.creation then
        Continue(UndoWrite(version, None, if agent.None? then None else Some(WithoutSkill(st, agent.value))), assets)
      else
        var before := RevisionNumbered(h, applied.value.number - 1);
        if before.None? || before.value.config.None? then Error
            else Continue(UndoWrite(version, before.value.config, None), assets)
  }

  function RevisionNumbered(h: seq<SkillRevision>, number: int): (r: Option<SkillRevision>)
    ensures r.Some? ==> r.value in h && r.value.number == number
    ensures r.None? <==> forall k :: 0 <= k < |h| ==> h[k].number != number
  {
    if h == [] then None
    else if h[0].number == number then Some(h[0])
    else
      assert forall k :: 0 < k < |h| ==> h[k] == h[1..][k - 1];
      RevisionNumbered(h[1..], number)
  }

  // ----- the workflow and everybody else

  function FirstPhase(work: Work): Phase
  {
    match work
    case Approving => AskProduced
    case Refusing(refusal) => CheckNotApplied(refusal)
    case Undoing => UndoVersion
  }

  /** The update of the row names the status it expects. */
  function Decided(status: Status, outcome: Outcome): Status
  {
    match outcome
    case Approve(result) => if status.Pending? then Approved(result) else status
    case Refuse(refusal) => if status.Pending? then Refused(refusal) else status
    case Undo => if status.Approved? then Reverted(status.result) else status
  }

  /** Revisions that others write in one transaction: they do not carry the id of this request. */
  predicate ByOthers(st: Setting, assets: Assets, skill: seq<SkillRevision>, agent: seq<AgentRevision>)
  {
    && (forall k :: 0 <= k < |skill| ==>
          && skill[k].origin != Some(st.id) && (skill[k].operation.Delete? <==> skill[k].config.None?)
          && skill[k].number == |assets.skill| + k + 1 && skill[k].version == assets.version + 1)
    && forall k :: 0 <= k < |agent| ==> agent[k].version == assets.version + 1
  }

  predicate Enabled(st: Setting, s: State, step: Step)
  {
    match step
    case Begin(i, work) =>
        i !in s.attempts && s.lock.None? && (if work.Undoing? then s.status.Approved? else s.status.Pending?)
    case Go(i) =>
      i in s.attempts && (s.attempts[i].Finish? ==> s.lock == Some(i))
    case Stop(i) => i in s.attempts
    case LoseLock => s.lock.Some?
    case OthersWrite(skill, agent) => ByOthers(st, s.assets, skill, agent)
  }

  function Ended(s: State, i: nat): State
  {
    s.(attempts := s.attempts - {i}, lock := if s.lock == Some(i) then None else s.lock)
  }

  function After(st: Setting, s: State, step: Step): State
    requires Enabled(st, s, step)
  {
    match step
    case Begin(i, work) => s.(attempts := s.attempts[i := FirstPhase(work)], lock := Some(i))
    case Go(i) => Going(st, s, i)
    case Stop(i) => Ended(s, i)
    case LoseLock => s.(lock := None)
    case OthersWrite(skill, agent) =>
      s.(assets := Assets(s.assets.version + 1, s.assets.skill + skill, s.assets.agent + agent))
  }

  /** The next call of an attempt; the last one records the status and ends the attempt. */
  function Going(st: Setting, s: State, i: nat): State
    requires i in s.attempts
  {
    if s.attempts[i].Finish? then Ended(s.(status := Decided(s.status, s.attempts[i].outcome)), i)
    else match Call(st, s.assets, s.attempts[i])
      case Error => Ended(s, i)
      case Continue(phase, assets) => s.(assets := assets, attempts := s.attempts[i := phase])
  }

  /** A new request: its id is on no revision yet. */
  predicate Initial(st: Setting, s: State)
  {
    && s.status.Pending? && s.lock.None? && s.attempts == map[]
    && Numbered(s.assets) && forall k :: 0 <= k < |s.assets.skill| ==> s.assets.skill[k].origin != Some(st.id)
  }

  predicate Runs(st: Setting, s: State, steps: seq<Step>)
    decreases |steps|
  {
    steps == [] || (Enabled(st, s, steps[0]) && Runs(st, After(st, s, steps[0]), steps[1..]))
  }

  function End(st: Setting, s: State, steps: seq<Step>): State
    requires Runs(st, s, steps)
    decreases |steps|
  {
    if steps == [] then s else End(st, After(st, s, steps[0]), steps[1..])
  }

  // ----- what every reachable state keeps

  predicate Numbered(assets: Assets)
  {
    && (forall k :: 0 <= k < |assets.skill| ==>
        assets.skill[k].number == k + 1 && assets.skill[k].version <= assets.version)
    && (forall k :: 0 <= k < |assets.agent| ==> assets.agent[k].version <= assets.version)
    && forall k :: 0 <= k < |assets.skill| ==> (assets.skill[k].operation.Delete? <==> assets.skill[k].config.None?)
  }

  predicate NotProduced(st: Setting, h: seq<SkillRevision>) { forall k :: 0 <= k < |h| ==> !Produced(st, h[k]) }

  predicate ProducedOnce(st: Setting, h: seq<SkillRevision>)
  {
    forall j, k :: 0 <= j < k < |h| ==> !(Produced(st, h[j]) && Produced(st, h[k]))
  }

  /** The agent as of one version of the set. */
  function AgentAt(h: seq<AgentRevision>, version: int): Option<Agent>
  {
    if h == [] then None else if h[|h| - 1].version <= version then h[|h| - 1].config
        else AgentAt(h[..|h| - 1], version)
  }

  /**
   The revision that applied the request holds the change of what was active right before it. With
   a created skill the agent names it too; an update leaves the agent.
   */
  predicate AppliedToCurrent(st: Setting, assets: Assets, k: nat)
    requires k < |assets.skill|
  {
    var r := assets.skill[k];
    && r.operation == (if st.creation then Create else Update)
    && ChangedSkill(st, ActiveSkill(assets.skill[..k])).Some?
        && r.config == ChangedSkill(st, ActiveSkill(assets.skill[..k]))
    && var before, agent := AgentAt(assets.agent, r.version - 1), AgentAt(assets.agent, r.version);
       if st.creation then before.Some? && agent.Some? && NamesOneMore(st, before.value, agent.value)
       else agent == before
  }

  /**
   The revision that took the request back directly follows the one that applied it. It restores
   what was there before, or deletes the created skill, whose name its agent loses.
   */
  predicate RestoresBefore(st: Setting, assets: Assets, k: nat)
    requires k < |assets.skill|
  {
    var r := assets.skill[k];
    && r.operation == (if st.creation then Delete else Revert)
    && k >= 1 && Produced(st, assets.skill[k - 1])
    && (if st.creation then
          r.config.None?
        else k >= 2 && r.config.Some? && r.config == assets.skill[k - 2].config)
    && var before, agent := AgentAt(assets.agent, r.version - 1), AgentAt(assets.agent, r.version);
       if st.creation && before.Some? then agent.Some? && NamesOneLess(st, before.value, agent.value)
       else agent == before
  }

  predicate RevisionsRight(st: Setting, assets: Assets)
  {
    forall k :: 0 <= k < |assets.skill| ==>
                  && (Produced(st, assets.skill[k]) ==> AppliedToCurrent(st, assets, k))
                  && (Undone(st, assets.skill[k]) ==> RestoresBefore(st, assets, k))
  }

  predicate Names(st: Setting, h: seq<SkillRevision>, result: Result)
  {
    exists k :: 0 <= k < |h| && Produced(st, h[k]) && result == ResultOf(h[k])
  }

  predicate TakenBack(st: Setting, h: seq<SkillRevision>)
  {
    exists k :: 0 <= k < |h| && Undone(st, h[k])
  }

  /** What an attempt has read still holds as long as the version it took is the version of the set. */
  predicate PhaseRight(st: Setting, assets: Assets, phase: Phase)
  {
    var h := assets.skill;
    match phase
    case AskProduced => true
    case AskSkill => true
    case AskAgent(_) => true
    case TakeVersion => true
    case TakeSkill(version) => version <= assets.version
    case TakeAgent(version, skill) =>
        version <= assets.version && (version == assets.version ==> skill == ActiveSkill(h))
    case Look(version, skill, agent) =>
      version <= assets.version
          && (version == assets.version ==> skill == ActiveSkill(h) && agent == ActiveAgent(assets.agent))
    case Write(version, config, agentConfig) =>
      && version <= assets.version
      && (version == assets.version ==>
            && NotProduced(st, h) && Some(config) == ChangedSkill(st, ActiveSkill(h))
            && GainReady(st, ActiveAgent(assets.agent), agentConfig))
    case ReadBack => !NotProduced(st, h)
    case CheckNotApplied(_) => true
    case UndoVersion => true
    case UndoAgent(version) => version <= assets.version
    case UndoHistory(version, agent) =>
        version <= assets.version && (version == assets.version ==> agent == ActiveAgent(assets.agent))
    case UndoWrite(version, restored, agentConfig) =>
      version <= assets.version && (version == assets.version ==> UndoReady(st, assets, restored, agentConfig))
    case UndoReadBack => TakenBack(st, h)
    case Finish(outcome) =>
      match outcome
      case Approve(result) => Names(st, h, result)
      case Refuse(_) => true
      case Undo => TakenBack(st, h)
  }

  /** The agent an approval writes beside the skill: the active one with the created skill. */
  predicate GainReady(st: Setting, active: Option<Agent>, agentConfig: Option<Agent>)
  {
    if st.creation then active.Some? && agentConfig.Some? && NamesOneMore(st, active.value, agentConfig.value)
    else agentConfig.None?
  }

  predicate UndoReady(st: Setting, assets: Assets, restored: Option<Config>, agentConfig: Option<Agent>)
  {
    var h := assets.skill;
    && |h| >= 1 && Produced(st, h[|h| - 1])
    && (if st.creation then
          && restored.None? && (agentConfig.Some? <==> ActiveAgent(assets.agent).Some?)
          && (agentConfig.Some? ==> NamesOneLess(st, ActiveAgent(assets.agent).value, agentConfig.value))
        else |h| >= 2 && restored.Some? && restored == h[|h| - 2].config && agentConfig.None?)
  }

  predicate StatusRight(st: Setting, s: State)
  {
    match s.status
    case Pending => true
    case Approved(result) => Names(st, s.assets.skill, result)
    case Reverted(result) => Names(st, s.assets.skill, result) && TakenBack(st, s.assets.skill)
    case Refused(_) => true
  }

  predicate Kept(st: Setting, s: State)
  {
    && Numbered(s.assets) && ProducedOnce(st, s.assets.skill) && RevisionsRight(st, s.assets)
    && StatusRight(st, s)
    && forall i :: i in s.attempts ==> PhaseRight(st, s.assets, s.attempts[i])
  }

  // ----- one step

  /**
   What a transaction of the asset store does to the revisions: the version goes up, and revisions
   of it are added.
   */
  predicate Grows(a: Assets, b: Assets)
  {
    && b.version == a.version + 1 && a.skill <= b.skill && a.agent <= b.agent
    && forall k :: |a.agent| <= k < |b.agent| ==> b.agent[k].version == b.version
  }

  lemma {:induction false} AgentAtStays(h: seq<AgentRevision>, more: seq<AgentRevision>, version: int)
    requires forall k :: 0 <= k < |more| ==> more[k].version > version
    ensures AgentAt(h + more, version) == AgentAt(h, version)
    decreases |more|
  {
    if more == [] {
      assert h + more == h;
    } else {
      var front := more[..|more| - 1];
      assert (h + more)[..|h + more| - 1] == h + front;
      AgentAtStays(h, front, version);
    }
  }

  /** Revisions that are there already stay right. */
  lemma OldRevisionsStay(st: Setting, a: Assets, b: Assets, k: nat)
    requires Numbered(a) && RevisionsRight(st, a) && Grows(a, b) && k < |a.skill|
    ensures b.skill[k] == a.skill[k]
    ensures Produced(st, b.skill[k]) ==> AppliedToCurrent(st, b, k)
    ensures Undone(st, b.skill[k]) ==> RestoresBefore(st, b, k)
  {
    assert b.skill[..k] == a.skill[..k];
    assert b.agent == a.agent + b.agent[|a.agent|..];
    AgentAtStays(a.agent, b.agent[|a.agent|..], a.skill[k].version);
    AgentAtStays(a.agent, b.agent[|a.agent|..], a.skill[k].version - 1);
  }

  /** A transaction of somebody else, and of another attempt, leaves right what an attempt has read. */
  lemma PhaseStays(st: Setting, a: Assets, b: Assets, phase: Phase)
    requires PhaseRight(st, a, phase) && Grows(a, b)
    ensures PhaseRight(st, b, phase)
  {
  }

  predicate AssetsRight(st: Setting, a: Assets) { Numbered(a) && ProducedOnce(st, a.skill) && RevisionsRight(st, a) }

  lemma OthersKeepAssets(st: Setting, a: Assets, skill: seq<SkillRevision>, agent: seq<AgentRevision>)
    requires AssetsRight(st, a) && ByOthers(st, a, skill, agent)
    ensures var b := Assets(a.version + 1, a.skill + skill, a.agent + agent);
            AssetsRight(st, b) && Grows(a, b) && forall k :: |a.skill| <= k < |b.skill| ==> !Produced(st, b.skill[k])
  {
    var b := Assets(a.version + 1, a.skill + skill, a.agent + agent);
    forall k | 0 <= k < |b.skill|
      ensures Produced(st, b.skill[k]) ==> AppliedToCurrent(st, b, k)
      ensures Undone(st, b.skill[k]) ==> RestoresBefore(st, b, k)
    {
      if k < |a.skill| {
        OldRevisionsStay(st, a, b, k);
      }
    }
  }

  /** One revision more, which is right where it stands. */
  lemma OneMoreIsRight(st: Setting, a: Assets, b: Assets)
    requires AssetsRight(st, a) && Grows(a, b) && Numbered(b) && |b.skill| == |a.skill| + 1
    requires Produced(st, b.skill[|a.skill|]) ==> NotProduced(st, a.skill) && AppliedToCurrent(st, b, |a.skill|)
    requires Undone(st, b.skill[|a.skill|]) ==> RestoresBefore(st, b, |a.skill|)
    ensures AssetsRight(st, b)
  {
    hide AppliedToCurrent, RestoresBefore;
    forall k | 0 <= k < |b.skill|
      ensures Produced(st, b.skill[k]) ==> AppliedToCurrent(st, b, k)
      ensures Undone(st, b.skill[k]) ==> RestoresBefore(st, b, k)
    {
      if k < |a.skill| {
        OldRevisionsStay(st, a, b, k);
      }
    }
  }

  /** The agent as of a new version is the one just stored, or the one there was; before it, the one there was. */
  lemma AgentAtWrite(a: Assets, agentConfig: Option<Agent>)
    requires Numbered(a)
    ensures AgentAt(AgentStored(a, agentConfig), a.version) == ActiveAgent(a.agent)
    ensures AgentAt(AgentStored(a, agentConfig), a.version + 1)
        == if agentConfig.Some? then agentConfig else ActiveAgent(a.agent)
  {
    if agentConfig.Some? {
      AgentAtStays(a.agent, [AgentRevision(agentConfig, a.version + 1)], a.version);
    }
  }

  /** The write of an approval: the version it names is read before everything it rests on. */
  lemma WriteKeepsAssets(st: Setting, a: Assets, phase: Phase)
    requires AssetsRight(st, a) && phase.Write? && PhaseRight(st, a, phase) && phase.version == a.version
    ensures var b := SkillStored(st, a, phase.config, false, phase.agentConfig);
            AssetsRight(st, b) && Grows(a, b) && |b.skill| == |a.skill| + 1 && Produced(st, b.skill[|a.skill|])
  {
    hide RevisionsRight, ProducedOnce;
    var b := SkillStored(st, a, phase.config, false, phase.agentConfig);
    assert b.skill[..|a.skill|] == a.skill;
    AgentAtWrite(a, phase.agentConfig);
    assert AppliedToCurrent(st, b, |a.skill|);
    OneMoreIsRight(st, a, b);
  }

  lemma UndoKeepsAssets(st: Setting, a: Assets, phase: Phase)
    requires AssetsRight(st, a) && phase.UndoWrite? && PhaseRight(st, a, phase) && phase.version == a.version
    ensures var b := if phase.restored.None? then SkillDeleted(st, a, phase.agentConfig)
        else SkillStored(st, a, phase.restored.value, true, phase.agentConfig);
            && AssetsRight(st, b) && Grows(a, b) && |b.skill| == |a.skill| + 1 && Undone(st, b.skill[|a.skill|])
  {
    hide RevisionsRight, ProducedOnce;
    var b := if phase.restored.None? then SkillDeleted(st, a, phase.agentConfig)
        else SkillStored(st, a, phase.restored.value, true, phase.agentConfig);
    AgentAtWrite(a, phase.agentConfig);
    assert RestoresBefore(st, b, |a.skill|);
    OneMoreIsRight(st, a, b);
  }

  /** A revert that goes on to write was read from a history whose last revision is the applied one. */
  lemma PlanIsReady(st: Setting, a: Assets, version: nat, agent: Option<Agent>)
    requires AssetsRight(st, a) && PhaseRight(st, a, UndoHistory(version, agent))
    ensures var reply := UndoPlan(st, a, version, agent);
            reply.Continue? ==>
                reply.assets == a && PhaseRight(st, a, reply.phase)
                && (reply.phase.UndoWrite? || reply.phase == Finish(Undo))
  {
    hide RevisionsRight, ProducedOnce, ChangedSkill, NamesOneLess, WithoutSkill;
    var h := a.skill;
    if agent.Some? { AgentLosesSkill(st, agent.value); }
    var applied := FirstProduced(st, h);
    if applied.Some? && !Undone(st, h[|h| - 1]) && h[|h| - 1] == applied.value && !st.creation {
      var before := RevisionNumbered(h, applied.value.number - 1);
      if before.Some? {
        assert before.value == h[|h| - 2];
      }
    }
  }

  /** One call of an attempt. */
  lemma CallKeeps(st: Setting, a: Assets, phase: Phase)
    requires AssetsRight(st, a) && PhaseRight(st, a, phase) && !phase.Finish?
    ensures var reply := Call(st, a, phase);
            reply.Continue? ==> AssetsRight(st, reply.assets) && PhaseRight(st, reply.assets, reply.phase)
                                && (reply.assets == a || Grows(a, reply.assets))
  {
    hide RevisionsRight, ProducedOnce, Numbered, ChangedSkill, SkillStored, SkillDeleted, UndoPlan, UndoReady,
        NamesOneMore, WithSkill;
    if phase.Write? {
      if phase.version == a.version { WriteKeepsAssets(st, a, phase); }
    } else if phase.UndoWrite? {
      if phase.version == a.version { UndoKeepsAssets(st, a, phase); }
    } else if phase.Look? {
      if phase.agent.Some? { AgentGainsSkill(st, phase.agent.value); }
    } else if phase.UndoHistory? {
      PlanIsReady(st, a, phase.version, phase.agent);
    }
  }

  lemma StatusStays(st: Setting, s: State, b: Assets)
    requires StatusRight(st, s) && Grows(s.assets, b)
    ensures StatusRight(st, s.(assets := b))
  {
  }

  lemma GoKeeps(st: Setting, s: State, i: nat)
    requires Kept(st, s) && Enabled(st, s, Go(i)) && !s.attempts[i].Finish?
    ensures Kept(st, After(st, s, Go(i)))
  {
    CallKeeps(st, s.assets, s.attempts[i]);
    var reply := Call(st, s.assets, s.attempts[i]);
    if reply.Continue? && reply.assets != s.assets {
      StatusStays(st, s, reply.assets);
      forall j | j in s.attempts && j != i ensures PhaseRight(st, reply.assets, s.attempts[j]) {
        PhaseStays(st, s.assets, reply.assets, s.attempts[j]);
      }
    }
  }

  lemma CommitKeeps(st: Setting, s: State, i: nat)
    requires Kept(st, s) && Enabled(st, s, Go(i)) && s.attempts[i].Finish?
    ensures Kept(st, After(st, s, Go(i)))
  {
    var t := After(st, s, Go(i));
    assert PhaseRight(st, s.assets, s.attempts[i]);
  }

  lemma StepKeeps(st: Setting, s: State, step: Step)
    requires Kept(st, s) && Enabled(st, s, step)
    ensures Kept(st, After(st, s, step))
  {
    match step
    case Begin(i, work) =>
    case Go(i) =>
      if s.attempts[i].Finish? { CommitKeeps(st, s, i); } else { GoKeeps(st, s, i); }
    case Stop(i) =>
    case LoseLock =>
    case OthersWrite(skill, agent) => OthersKeep(st, s, step);
  }

  lemma OthersKeep(st: Setting, s: State, step: Step)
    requires Kept(st, s) && Enabled(st, s, step) && step.OthersWrite?
    ensures Kept(st, After(st, s, step))
  {
    hide RevisionsRight, StatusRight;
    OthersKeepAssets(st, s.assets, step.skill, step.agent);
    var t := After(st, s, step);
    StatusStays(st, s, t.assets);
    forall j | j in s.attempts ensures PhaseRight(st, t.assets, s.attempts[j]) {
      PhaseStays(st, s.assets, t.assets, s.attempts[j]);
    }
  }

  lemma {:induction false} RunKeeps(st: Setting, s: State, steps: seq<Step>)
    requires Kept(st, s) && Runs(st, s, steps)
    ensures Kept(st, End(st, s, steps))
    decreases |steps|
  {
    hide Kept, Enabled, After;
    if steps != [] {
      StepKeeps(st, s, steps[0]);
      RunKeeps(st, After(st, s, steps[0]), steps[1..]);
    }
  }

  // ----- what a request promises

  /**
   A request applies at most once, whatever attempts run, stop or lose their lock. What it
   applies is its change of the skill as it was right before, so nothing written in between is lost.
   */
  lemma AppliesOnce(st: Setting, s: State, steps: seq<Step>)
    requires Initial(st, s) && Runs(st, s, steps)
    ensures var assets := End(st, s, steps).assets;
            && ProducedOnce(st, assets.skill)
            && forall k :: 0 <= k < |assets.skill| && Produced(st, assets.skill[k]) ==> AppliedToCurrent(st, assets, k)
  {
    RunKeeps(st, s, steps);
  }

  /** An approved request has exactly one revision that applied it, which its result names. */
  lemma StatusTells(st: Setting, s: State, steps: seq<Step>)
    requires Initial(st, s) && Runs(st, s, steps)
    ensures var t := End(st, s, steps);
            t.status.Approved? || t.status.Reverted? ==>
                Names(st, t.assets.skill, t.status.result) && ProducedOnce(st, t.assets.skill)
  {
    RunKeeps(st, s, steps);
  }

  // ----- what is behind a refusal

  /** An attempt has found the request not applied and goes on to refuse it, or may. */
  predicate MayRefuse(phase: Phase)
  {
    phase.AskSkill? || phase.AskAgent? || (phase.Finish? && phase.outcome.Refuse?)
  }

  /** The request is refused, or the attempt that holds its row may be about to record that. */
  predicate RefusalStands(s: State)
  {
    s.status.Refused? || (s.lock.Some? && s.lock.value in s.attempts && MayRefuse(s.attempts[s.lock.value]))
  }

  /** An asset write of the request commits. */
  predicate Applies(s: State, step: Step)
  {
    step.Go? && step.attempt in s.attempts && s.attempts[step.attempt].Write?
        && s.attempts[step.attempt].version == s.assets.version
  }

  /** No asset write commits where a refusal stands. */
  predicate NeverOvertaken(st: Setting, s: State, steps: seq<Step>)
    requires Runs(st, s, steps)
    decreases |steps|
  {
    steps == []
        || (!(Applies(s, steps[0]) && RefusalStands(s)) && NeverOvertaken(st, After(st, s, steps[0]), steps[1..]))
  }

  /** Every asset write is made by the attempt that holds the row. */
  predicate WritesHeld(st: Setting, s: State, steps: seq<Step>)
    requires Runs(st, s, steps)
    decreases |steps|
  {
    steps == []
        || ((Applies(s, steps[0]) ==> s.lock == Some(steps[0].attempt))
        && WritesHeld(st, After(st, s, steps[0]), steps[1..]))
  }

  predicate RefusalRight(st: Setting, s: State) { RefusalStands(s) ==> NotProduced(st, s.assets.skill) }

  lemma RefusalStaysRight(st: Setting, s: State, step: Step)
    requires RefusalRight(st, s) && Enabled(st, s, step) && !(Applies(s, step) && RefusalStands(s))
    ensures RefusalRight(st, After(st, s, step))
  {
  }

  lemma AppliedIsProduced(st: Setting, s: State, step: Step)
    requires Enabled(st, s, step) && Applies(s, step)
    ensures !NotProduced(st, After(st, s, step).assets.skill)
  {
    var phase, b := s.attempts[step.attempt], After(st, s, step).assets;
    assert b == SkillStored(st, s.assets, phase.config, false, phase.agentConfig);
    assert Produced(st, b.skill[|s.assets.skill|]);
  }

  lemma SkillGrows(st: Setting, s: State, step: Step)
    requires Enabled(st, s, step)
    ensures s.assets.skill <= After(st, s, step).assets.skill
  {
  }

  lemma {:induction false} ProducedStays(st: Setting, s: State, steps: seq<Step>)
    requires Runs(st, s, steps) && !NotProduced(st, s.assets.skill)
    ensures !NotProduced(st, End(st, s, steps).assets.skill)
    decreases |steps|
  {
    hide Enabled, After;
    if steps != [] {
      SkillGrows(st, s, steps[0]);
      var k :| 0 <= k < |s.assets.skill| && Produced(st, s.assets.skill[k]);
      assert After(st, s, steps[0]).assets.skill[k] == s.assets.skill[k];
      ProducedStays(st, After(st, s, steps[0]), steps[1..]);
    }
  }

  lemma {:induction false} RunStaysRight(st: Setting, s: State, steps: seq<Step>)
    requires Runs(st, s, steps) && RefusalRight(st, s)
    ensures NeverOvertaken(st, s, steps) ==> RefusalRight(st, End(st, s, steps))
    ensures !NeverOvertaken(st, s, steps) ==> !NotProduced(st, End(st, s, steps).assets.skill)
    decreases |steps|
  {
    hide Enabled, After, RefusalRight, NotProduced, RefusalStands, Applies;
    if steps != [] {
      var step, next := steps[0], After(st, s, steps[0]);
      if Applies(s, step) && RefusalStands(s) {
        AppliedIsProduced(st, s, step);
        ProducedStays(st, next, steps[1..]);
      } else {
        RefusalStaysRight(st, s, step);
        RunStaysRight(st, next, steps[1..]);
      }
    }
  }

  /**
   A request that is refused has no revision that applied it, if and only if no asset write of it
   committed while it was refused or about to be, by the attempt that held its row.
   */
  lemma RefusedIsNotLive(st: Setting, s: State, steps: seq<Step>)
    requires Initial(st, s) && Runs(st, s, steps) && End(st, s, steps).status.Refused?
    ensures NotProduced(st, End(st, s, steps).assets.skill) <==> NeverOvertaken(st, s, steps)
  {
    RunStaysRight(st, s, steps);
  }

  predicate Approves(phase: Phase)
  {
    phase.AskProduced? || phase.AskSkill? || phase.AskAgent? || phase.TakeVersion? || phase.TakeSkill?
        || phase.TakeAgent?
    || phase.Look? || phase.Write?
  }

  /** While an attempt to approve holds the row, nothing is decided. */
  predicate HolderIsPending(s: State)
  {
    s.lock.Some? && s.lock.value in s.attempts && Approves(s.attempts[s.lock.value]) ==> s.status.Pending?
  }

  lemma HolderStaysPending(st: Setting, s: State, step: Step)
    requires HolderIsPending(s) && Enabled(st, s, step)
    ensures HolderIsPending(After(st, s, step))
  {
  }

  /** Where every asset write is made by the attempt that holds the row, no refusal is overtaken. */
  lemma {:induction false} HeldIsNeverOvertaken(st: Setting, s: State, steps: seq<Step>)
    requires Runs(st, s, steps) && HolderIsPending(s) && WritesHeld(st, s, steps)
    ensures NeverOvertaken(st, s, steps)
    decreases |steps|
  {
    hide Enabled, After;
    if steps != [] {
      HolderStaysPending(st, s, steps[0]);
      HeldIsNeverOvertaken(st, After(st, s, steps[0]), steps[1..]);
    }
  }

  /** So a lock that is never lost under a write is enough: nothing refused is live. */
  lemma HeldRefusalIsNotLive(st: Setting, s: State, steps: seq<Step>)
    requires Initial(st, s) && Runs(st, s, steps) && WritesHeld(st, s, steps) && End(st, s, steps).status.Refused?
    ensures NotProduced(st, End(st, s, steps).assets.skill)
  {
    HeldIsNeverOvertaken(st, s, steps);
    RefusedIsNotLive(st, s, steps);
  }

  /**
   A request is taken back at most once, and only right behind the revision that applied it. That
   restores what was there before, or deletes the created skill, which its agent then does not name.
   */
  lemma RevertsOnce(st: Setting, s: State, steps: seq<Step>)
    requires Initial(st, s) && Runs(st, s, steps)
    ensures var t := End(st, s, steps);
            && (forall k :: 0 <= k < |t.assets.skill| && Undone(st, t.assets.skill[k]) ==>
                RestoresBefore(st, t.assets, k))
            && (forall j, k :: 0 <= j < k < |t.assets.skill| ==>
                !(Undone(st, t.assets.skill[j]) && Undone(st, t.assets.skill[k])))
            && (t.status.Reverted? ==> TakenBack(st, t.assets.skill))
  {
    RunKeeps(st, s, steps);
  }

  lemma OneMore(st: Setting, s: State, step: Step, rest: seq<Step>)
    requires Enabled(st, s, step) && Runs(st, After(st, s, step), rest)
    ensures Runs(st, s, [step] + rest) && End(st, s, [step] + rest) == End(st, After(st, s, step), rest)
  {
  }

  /** An attempt that runs alone, at its next call. */
  function Holding(s: State, i: nat, phase: Phase): State { s.(lock := Some(i), attempts := s.attempts[i := phase]) }

  lemma GoesOn(st: Setting, s: State, i: nat, from: Phase, to: Phase, rest: seq<Step>)
    requires !from.Finish? && Call(st, s.assets, from) == Continue(to, s.assets) && Runs(st, Holding(s, i, to), rest)
    ensures Runs(st, Holding(s, i, from), [Go(i)] + rest)
    ensures End(st, Holding(s, i, from), [Go(i)] + rest) == End(st, Holding(s, i, to), rest)
  {
    hide Call;
    assert s.attempts[i := from][i := to] == s.attempts[i := to];
    assert After(st, Holding(s, i, from), Go(i)) == Holding(s, i, to);
    OneMore(st, Holding(s, i, from), Go(i), rest);
  }

  /** From the first call of an attempt on a free row to the end of that attempt. */
  lemma Records(st: Setting, s: State, i: nat, work: Work, calls: seq<Step>, outcome: Outcome)
    requires i !in s.attempts && s.lock.None? && (if work.Undoing? then s.status.Approved? else s.status.Pending?)
    requires Runs(st, Holding(s, i, FirstPhase(work)), calls)
    requires End(st, Holding(s, i, FirstPhase(work)), calls) == s.(status := Decided(s.status, outcome))
    ensures Runs(st, s, [Begin(i, work)] + calls)
    ensures End(st, s, [Begin(i, work)] + calls) == s.(status := Decided(s.status, outcome))
  {
  }

  lemma Commits(st: Setting, s: State, i: nat, outcome: Outcome)
    requires i !in s.attempts && s.lock.None?
    ensures Runs(st, Holding(s, i, Finish(outcome)), [Go(i)] + [])
    ensures End(st, Holding(s, i, Finish(outcome)), [Go(i)] + []) == s.(status := Decided(s.status, outcome))
  {
    assert s.attempts[i := Finish(outcome)] - {i} == s.attempts;
    OneMore(st, Holding(s, i, Finish(outcome)), Go(i), []);
  }

  function Gos(i: nat, n: nat): seq<Step> { if n == 0 then [] else [Go(i)] + Gos(i, n - 1) }

  /** The calls of `loadMutationSnapshot`: the version before everything else. */
  lemma LoadsSnapshot(st: Setting, s: State, i: nat, n: nat)
    requires Runs(st,
        Holding(s, i, Look(s.assets.version, ActiveSkill(s.assets.skill), ActiveAgent(s.assets.agent))), Gos(i, n))
    ensures var loaded := Look(s.assets.version, ActiveSkill(s.assets.skill), ActiveAgent(s.assets.agent));
            && Runs(st, Holding(s, i, TakeVersion), Gos(i, n + 3))
            && End(st, Holding(s, i, TakeVersion), Gos(i, n + 3)) == End(st, Holding(s, i, loaded), Gos(i, n))
  {
    hide Runs, End, ActiveSkill, ActiveAgent;
    var version, skill := s.assets.version, ActiveSkill(s.assets.skill);
    GoesOn(st, s, i, TakeAgent(version, skill), Look(version, skill, ActiveAgent(s.assets.agent)), Gos(i, n));
    assert Gos(i, n + 1) == [Go(i)] + Gos(i, n);
    GoesOn(st, s, i, TakeSkill(version), TakeAgent(version, skill), Gos(i, n + 1));
    assert Gos(i, n + 2) == [Go(i)] + Gos(i, n + 1);
    GoesOn(st, s, i, TakeVersion, TakeSkill(version), Gos(i, n + 2));
    assert Gos(i, n + 3) == [Go(i)] + Gos(i, n + 2);
  }

  /**
   After a stop between the asset write and the status, approving the request again records the
   outcome and writes nothing, even where the agent is gone or no longer has the skill.
   */
  lemma ApprovingAgainRecords(st: Setting, s: State, i: nat)
    requires s.status.Pending? && s.lock.None? && i !in s.attempts && FirstProduced(st, s.assets.skill).Some?
    ensures var steps := [Begin(i, Approving)] + Gos(i, 6);
            && Runs(st, s, steps)
            && End(st, s, steps) == s.(status := Approved(ResultOf(FirstProduced(st, s.assets.skill).value)))
  {
    hide Runs, End, FirstProduced;
    var version, skill, agent := s.assets.version, ActiveSkill(s.assets.skill), ActiveAgent(s.assets.agent);
    var outcome := Approve(ResultOf(FirstProduced(st, s.assets.skill).value));
    Commits(st, s, i, outcome);
    assert Gos(i, 0) == [] && Gos(i, 1) == [Go(i)] + Gos(i, 0);
    GoesOn(st, s, i, Look(version, skill, agent), Finish(outcome), Gos(i, 1));
    LoadsSnapshot(st, s, i, 2);
    GoesOn(st, s, i, AskProduced, TakeVersion, Gos(i, 5));
    Records(st, s, i, Approving, Gos(i, 6), outcome);
  }

  /** After a stop between the revert's asset write and its status, reverting again writes nothing more. */
  lemma RevertingAgainRecords(st: Setting, s: State, i: nat)
    requires s.status.Approved? && s.lock.None? && i !in s.attempts && FirstProduced(st, s.assets.skill).Some?
    requires Undone(st, s.assets.skill[|s.assets.skill| - 1])
    ensures var steps := [Begin(i, Undoing)] + Gos(i, 4);
            && Runs(st, s, steps)
            && End(st, s, steps) == s.(status := Reverted(s.status.result))
  {
    hide Runs, End, FirstProduced;
    var version, agent := s.assets.version, ActiveAgent(s.assets.agent);
    Commits(st, s, i, Undo);
    assert Gos(i, 0) == [] && Gos(i, 1) == [Go(i)] + Gos(i, 0);
    GoesOn(st, s, i, UndoHistory(version, agent), Finish(Undo), Gos(i, 1));
    GoesOn(st, s, i, UndoAgent(version), UndoHistory(version, agent), Gos(i, 2));
    GoesOn(st, s, i, UndoVersion, UndoAgent(version), Gos(i, 3));
    Records(st, s, i, Undoing, Gos(i, 4), Undo);
  }

  // ----- an approval that nothing disturbs

  /** The agent is there, and the change can be made: a new skill is not there yet, another one is and is named. */
  predicate Fits(st: Setting, skill: Option<Config>, agent: Option<Agent>)
  {
    && agent.Some?
    && if st.creation then skill.None? && st.edit(st.initial).Some?
       else skill.Some? && st.skillName in agent.value.skillNames && st.edit(skill.value).Some?
  }

  predicate Permitted(st: Setting) { st.changesEnabled && (st.creation ==> st.creationAllowed) }

  /** What an approval writes where it fits. */
  function Change(st: Setting, assets: Assets): Phase
    requires Fits(st, ActiveSkill(assets.skill), ActiveAgent(assets.agent))
  {
    var skill, agent := ActiveSkill(assets.skill), ActiveAgent(assets.agent);
    Write(assets.version, st.edit(if st.creation then st.initial else skill.value).value,
        if st.creation then Some(WithSkill(st, agent.value)) else None)
  }

  /** The calls of an approval that nothing disturbs, up to its write. */
  lemma ReachesWrite(st: Setting, s: State, i: nat, n: nat)
    requires i !in s.attempts && s.lock.None? && s.status.Pending? && FirstProduced(st, s.assets.skill).None?
    requires Fits(st, ActiveSkill(s.assets.skill), ActiveAgent(s.assets.agent)) && Permitted(st)
    requires Runs(st, Holding(s, i, Change(st, s.assets)), Gos(i, n))
    ensures var steps := [Begin(i, Approving)] + Gos(i, 7 + n);
            Runs(st, s, steps) && End(st, s, steps) == End(st, Holding(s, i, Change(st, s.assets)), Gos(i, n))
  {
    hide Runs, End, FirstProduced, Call, Enabled, After, Change, Fits, Permitted, Gos, ActiveSkill, ActiveAgent;
    var version, skill, agent := s.assets.version, ActiveSkill(s.assets.skill), ActiveAgent(s.assets.agent);
    BeginsHolding(st, s, i, Approving);
    LookLeadsToWrite(st, s.assets);
    GoesOn(st, s, i, Look(version, skill, agent), Change(st, s.assets), Gos(i, n));
    OneGoMore(i, n);
    LoadsSnapshot(st, s, i, 1 + n);
    ReachesSnapshot(st, s, i, n);
    OneMore(st, s, Begin(i, Approving), Gos(i, 7 + n));
  }

  lemma LookLeadsToWrite(st: Setting, a: Assets)
    requires FirstProduced(st, a.skill).None? && Permitted(st)
    requires Fits(st, ActiveSkill(a.skill), ActiveAgent(a.agent))
    ensures Call(st, a, Look(a.version, ActiveSkill(a.skill), ActiveAgent(a.agent))) == Continue(Change(st, a), a)
  {
  }

  lemma OneGoMore(i: nat, n: nat)
    ensures Gos(i, n + 1) == [Go(i)] + Gos(i, n)
  {
  }

  lemma RunsNothing(st: Setting, s: State, i: nat)
    ensures Gos(i, 0) == [] && Runs(st, s, []) && End(st, s, []) == s
  {
  }

  lemma ReachesSnapshot(st: Setting, s: State, i: nat, n: nat)
    requires FirstProduced(st, s.assets.skill).None?
    requires Fits(st, ActiveSkill(s.assets.skill), ActiveAgent(s.assets.agent))
    requires Runs(st, Holding(s, i, TakeVersion), Gos(i, 4 + n))
    ensures Runs(st, Holding(s, i, AskProduced), Gos(i, 7 + n))
    ensures End(st, Holding(s, i, AskProduced), Gos(i, 7 + n)) == End(st, Holding(s, i, TakeVersion), Gos(i, 4 + n))
  {
    var skill := ActiveSkill(s.assets.skill);
    hide Runs, End;
    GoesOn(st, s, i, AskAgent(skill), TakeVersion, Gos(i, 4 + n));
    assert Gos(i, 5 + n) == [Go(i)] + Gos(i, 4 + n);
    GoesOn(st, s, i, AskSkill, AskAgent(skill), Gos(i, 5 + n));
    assert Gos(i, 6 + n) == [Go(i)] + Gos(i, 5 + n);
    GoesOn(st, s, i, AskProduced, AskSkill, Gos(i, 6 + n));
    assert Gos(i, 7 + n) == [Go(i)] + Gos(i, 6 + n);
  }

  lemma FirstIsNew(st: Setting, h: seq<SkillRevision>, r: SkillRevision)
    requires NotProduced(st, h) && Produced(st, r)
    ensures FirstProduced(st, h + [r]) == Some(r)
  {
    var first := FirstProduced(st, h + [r]);
    assert (h + [r])[|h|] == r;
    assert first.Some?;
  }

  /** The write and what follows it, up to the status. */
  lemma WritesAndRecords(st: Setting, s: State, i: nat, after: Assets)
    requires i !in s.attempts && s.lock.None? && s.status.Pending? && NotProduced(st, s.assets.skill)
    requires Fits(st, ActiveSkill(s.assets.skill), ActiveAgent(s.assets.agent))
    requires var change := Change(st, s.assets);
             after == SkillStored(st, s.assets, change.config, false, change.agentConfig)
    ensures var result := Result(|s.assets.skill| + 1, s.assets.version + 1);
            && Runs(st, Holding(s, i, Change(st, s.assets)), Gos(i, 3))
            && End(st, Holding(s, i, Change(st, s.assets)), Gos(i, 3))
                == s.(assets := after, status := Approved(result))
  {
    var change, stored := Change(st, s.assets), s.(assets := after);
    FirstIsNew(st, s.assets.skill, after.skill[|s.assets.skill|]);
    var outcome := Approve(ResultOf(after.skill[|s.assets.skill|]));
    assert Call(st, s.assets, change) == Continue(ReadBack, after);
    assert Call(st, after, ReadBack) == Continue(Finish(outcome), after);
    hide Runs, End, Call, FirstProduced, NotProduced, Change, Gos, SkillStored, Enabled, After;
    Commits(st, stored, i, outcome);
    OneGoMore(i, 0);
    OneGoMore(i, 1);
    OneGoMore(i, 2);
    RunsNothing(st, stored, i);
    GoesOn(st, stored, i, ReadBack, Finish(outcome), Gos(i, 1));
    CallStores(st, s, i, change, ReadBack, after);
    OneMore(st, Holding(s, i, change), Go(i), Gos(i, 2));
  }

  lemma CallStores(st: Setting, s: State, i: nat, from: Phase, to: Phase, after: Assets)
    requires !from.Finish? && Call(st, s.assets, from) == Continue(to, after)
    ensures Enabled(st, Holding(s, i, from), Go(i))
    ensures After(st, Holding(s, i, from), Go(i)) == Holding(s.(assets := after), i, to)
  {
    assert s.attempts[i := from][i := to] == s.attempts[i := to];
  }

  lemma CallFails(st: Setting, s: State, i: nat, from: Phase)
    requires !from.Finish? && Call(st, s.assets, from).Error? && i !in s.attempts && s.lock.None?
    ensures Runs(st, Holding(s, i, from), Gos(i, 1)) && End(st, Holding(s, i, from), Gos(i, 1)) == s
  {
    hide Call;
    OneGoMore(i, 0);
    assert s.attempts[i := from] - {i} == s.attempts;
    assert After(st, Holding(s, i, from), Go(i)) == s;
    OneMore(st, Holding(s, i, from), Go(i), []);
  }

  /**
   An approval that nothing disturbs. Where the change fits and the policy permits it, it is stored
   as the next revision of the skill, and the request is approved with that revision.
   */
  lemma UndisturbedApplies(st: Setting, s: State, i: nat)
    requires i !in s.attempts && s.lock.None? && s.status.Pending? && NotProduced(st, s.assets.skill)
    requires Fits(st, ActiveSkill(s.assets.skill), ActiveAgent(s.assets.agent)) && Permitted(st)
    ensures var steps := [Begin(i, Approving)] + Gos(i, 10);
            && Runs(st, s, steps)
            && var t := End(st, s, steps);
               && t == s.(assets := t.assets, status := Approved(Result(|s.assets.skill| + 1, s.assets.version + 1)))
               && |t.assets.skill| == |s.assets.skill| + 1 && s.assets.skill <= t.assets.skill
               && Produced(st, t.assets.skill[|s.assets.skill|])
  {
    hide Runs, End, Gos, Fits, Permitted, FirstProduced;
    var change := Change(st, s.assets);
    WritesAndRecords(st, s, i, SkillStored(st, s.assets, change.config, false, change.agentConfig));
    assert FirstProduced(st, s.assets.skill).None?;
    ReachesWrite(st, s, i, 3);
  }

  /** Where it fits but is not permitted, the attempt fails, and everything is as it was. */
  lemma UndisturbedFails(st: Setting, s: State, i: nat)
    requires i !in s.attempts && s.lock.None? && s.status.Pending? && NotProduced(st, s.assets.skill)
    requires Fits(st, ActiveSkill(s.assets.skill), ActiveAgent(s.assets.agent)) && !Permitted(st)
    ensures var steps := [Begin(i, Approving)] + Gos(i, 7);
            Runs(st, s, steps) && End(st, s, steps) == s
  {
    var look := Look(s.assets.version, ActiveSkill(s.assets.skill), ActiveAgent(s.assets.agent));
    assert FirstProduced(st, s.assets.skill).None? && Call(st, s.assets, look).Error?;
    BeginsHolding(st, s, i, Approving);
    hide Runs, End, Gos, Fits, Permitted, FirstProduced, Call, Enabled, After;
    CallFails(st, s, i, look);
    LoadsSnapshot(st, s, i, 1);
    ReachesSnapshot(st, s, i, 0);
    OneMore(st, s, Begin(i, Approving), Gos(i, 7));
  }

  /** Where it does not fit what there is, the request is superseded, and nothing is stored. */
  lemma UndisturbedIsSuperseded(st: Setting, s: State, i: nat)
    requires i !in s.attempts && s.lock.None? && s.status.Pending? && NotProduced(st, s.assets.skill)
    requires !Fits(st, ActiveSkill(s.assets.skill), ActiveAgent(s.assets.agent))
    ensures var steps := [Begin(i, Approving)] + Gos(i, 4);
            Runs(st, s, steps) && End(st, s, steps) == s.(status := Refused(Superseded))
  {
    var skill, outcome := ActiveSkill(s.assets.skill), Refuse(Superseded);
    assert Call(st, s.assets, AskProduced) == Continue(AskSkill, s.assets);
    assert Call(st, s.assets, AskSkill) == Continue(AskAgent(skill), s.assets);
    assert Call(st, s.assets, AskAgent(skill)) == Continue(Finish(outcome), s.assets);
    hide Runs, End, Gos, Fits, FirstProduced, NotProduced, Call, ActiveSkill, ActiveAgent;
    Commits(st, s, i, outcome);
    RunsNothing(st, s, i);
    OneGoMore(i, 0);
    OneGoMore(i, 1);
    GoesOn(st, s, i, AskAgent(skill), Finish(outcome), Gos(i, 1));
    OneGoMore(i, 2);
    GoesOn(st, s, i, AskSkill, AskAgent(skill), Gos(i, 2));
    OneGoMore(i, 3);
    GoesOn(st, s, i, AskProduced, AskSkill, Gos(i, 3));
    Records(st, s, i, Approving, Gos(i, 4), outcome);
  }

  // ----- a revert that nothing disturbs

  /** What was there before can be restored, or the created skill deleted: nothing came behind the applied revision. */
  predicate Revertible(st: Setting, h: seq<SkillRevision>)
  {
    && h != [] && Produced(st, h[|h| - 1])
    && (!st.creation ==> |h| >= 2 && h[|h| - 2].config.Some?)
  }

  /** What a revert writes where it can. */
  function Reversal(st: Setting, assets: Assets): Phase
    requires Revertible(st, assets.skill)
  {
    var agent := ActiveAgent(assets.agent);
    if st.creation then
      UndoWrite(assets.version, None, if agent.None? then None else Some(WithoutSkill(st, agent.value)))
    else UndoWrite(assets.version, assets.skill[|assets.skill| - 2].config, None)
  }

  lemma PlanOf(st: Setting, a: Assets)
    requires AssetsRight(st, a)
    ensures var plan := UndoPlan(st, a, a.version, ActiveAgent(a.agent));
            if Revertible(st, a.skill) then plan == Continue(Reversal(st, a), a)
            else if a.skill != [] && !NotProduced(st, a.skill) && Undone(st, a.skill[|a.skill| - 1]) then
              plan == Continue(Finish(Undo), a)
            else plan.Error?
  {
    hide RevisionsRight;
    var h := a.skill;
    var applied := FirstProduced(st, h);
    if applied.Some? {
      var k :| 0 <= k < |h| && h[k] == applied.value;
      assert h[|h| - 1] == applied.value ==> k == |h| - 1;
      assert Produced(st, h[|h| - 1]) ==> k == |h| - 1;
      if k == |h| - 1 && !st.creation {
        var before := RevisionNumbered(h, applied.value.number - 1);
        if before.Some? { assert before.value == h[|h| - 2]; }
      }
    }
  }

  lemma ReachesPlan(st: Setting, s: State, i: nat, n: nat, phase: Phase)
    requires i !in s.attempts && s.lock.None? && s.status.Approved?
    requires phase == UndoHistory(s.assets.version, ActiveAgent(s.assets.agent))
    requires Runs(st, Holding(s, i, phase), Gos(i, n))
    ensures var steps := [Begin(i, Undoing)] + Gos(i, 2 + n);
            Runs(st, s, steps) && End(st, s, steps) == End(st, Holding(s, i, phase), Gos(i, n))
  {
    hide Runs, End, Gos, Enabled, After;
    var version := s.assets.version;
    BeginsHolding(st, s, i, Undoing);
    OneGoMore(i, n);
    OneGoMore(i, n + 1);
    GoesOn(st, s, i, UndoAgent(version), phase, Gos(i, n));
    GoesOn(st, s, i, UndoVersion, UndoAgent(version), Gos(i, n + 1));
    OneMore(st, s, Begin(i, Undoing), Gos(i, 2 + n));
  }

  /** What a revert leaves of the assets. */
  function TakenBackFrom(st: Setting, a: Assets): Assets
    requires Revertible(st, a.skill)
  {
    var phase := Reversal(st, a);
    if phase.restored.None? then SkillDeleted(st, a, phase.agentConfig)
    else SkillStored(st, a, phase.restored.value, true, phase.agentConfig)
  }

  lemma UndoesAndRecords(st: Setting, s: State, i: nat)
    requires i !in s.attempts && s.lock.None? && s.status.Approved? && Revertible(st, s.assets.skill)
    ensures Runs(st, Holding(s, i, Reversal(st, s.assets)), Gos(i, 3))
    ensures End(st, Holding(s, i, Reversal(st, s.assets)), Gos(i, 3))
        == s.(assets := TakenBackFrom(st, s.assets), status := Reverted(s.status.result))
  {
    var phase, after := Reversal(st, s.assets), TakenBackFrom(st, s.assets);
    var stored := s.(assets := after);
    assert Call(st, s.assets, phase) == Continue(UndoReadBack, after);
    assert Call(st, after, UndoReadBack) == Continue(Finish(Undo), after);
    hide Runs, End, Call, Reversal, TakenBackFrom, Gos, Enabled, After, Revertible;
    Commits(st, stored, i, Undo);
    OneGoMore(i, 0);
    OneGoMore(i, 1);
    OneGoMore(i, 2);
    RunsNothing(st, stored, i);
    GoesOn(st, stored, i, UndoReadBack, Finish(Undo), Gos(i, 1));
    CallStores(st, s, i, phase, UndoReadBack, after);
    OneMore(st, Holding(s, i, phase), Go(i), Gos(i, 2));
  }

  /**
   A revert that nothing disturbs. Where the applied revision is the latest and there is something
   to restore, the request is taken back: the next revision does it, which `RevertsOnce` describes.
   */
  lemma UndisturbedReverts(st: Setting, s: State, i: nat)
    requires i !in s.attempts && s.lock.None? && s.status.Approved? && AssetsRight(st, s.assets)
    requires Revertible(st, s.assets.skill)
    ensures var steps := [Begin(i, Undoing)] + Gos(i, 6);
            && Runs(st, s, steps)
            && var t := End(st, s, steps);
               && t == s.(assets := t.assets, status := Reverted(s.status.result))
               && |t.assets.skill| == |s.assets.skill| + 1 && s.assets.skill <= t.assets.skill
               && Undone(st, t.assets.skill[|s.assets.skill|])
  {
    var phase := UndoHistory(s.assets.version, ActiveAgent(s.assets.agent));
    PlanOf(st, s.assets);
    UndoneIsLast(st, s.assets);
    assert Call(st, s.assets, phase) == Continue(Reversal(st, s.assets), s.assets);
    hide Runs, End, Gos, Call, Reversal, TakenBackFrom, Revertible, AssetsRight;
    UndoesAndRecords(st, s, i);
    GoesOn(st, s, i, phase, Reversal(st, s.assets), Gos(i, 3));
    OneGoMore(i, 3);
    ReachesPlan(st, s, i, 4, phase);
  }

  lemma UndoneIsLast(st: Setting, a: Assets)
    requires AssetsRight(st, a) && Revertible(st, a.skill)
    ensures var b := TakenBackFrom(st, a);
            |b.skill| == |a.skill| + 1 && a.skill <= b.skill && Undone(st, b.skill[|a.skill|])
  {
    hide RevisionsRight, ProducedOnce;
    assert st.creation ==> ActiveSkill(a.skill).Some?;
  }

  /** Where newer changes came behind it, or nothing is there to restore, a revert fails and changes nothing. */
  lemma UndisturbedRevertFails(st: Setting, s: State, i: nat)
    requires i !in s.attempts && s.lock.None? && s.status.Approved? && AssetsRight(st, s.assets)
    requires !Revertible(st, s.assets.skill)
    requires s.assets.skill != [] ==> !Undone(st, s.assets.skill[|s.assets.skill| - 1])
    ensures var steps := [Begin(i, Undoing)] + Gos(i, 3);
            Runs(st, s, steps) && End(st, s, steps) == s
  {
    var phase := UndoHistory(s.assets.version, ActiveAgent(s.assets.agent));
    PlanOf(st, s.assets);
    assert Call(st, s.assets, phase).Error?;
    hide Runs, End, Gos, Call, Revertible, AssetsRight;
    CallFails(st, s, i, phase);
    ReachesPlan(st, s, i, 1, phase);
  }

  // ----- a decision stands

  predicate StandsAs(before: Status, after: Status)
  {
    match before
    case Pending => true
    case Approved(result) => after == before || after == Reverted(result)
    case Refused(_) => after == before
    case Reverted(_) => after == before
  }

  lemma DecisionStands(st: Setting, s: State, step: Step)
    requires Enabled(st, s, step)
    ensures StandsAs(s.status, After(st, s, step).status)
  {
  }

  /** A request is decided once: a refusal stands for good, and an approval until it is taken back. */
  lemma {:induction false} DecidedOnce(st: Setting, s: State, steps: seq<Step>)
    requires Runs(st, s, steps)
    ensures StandsAs(s.status, End(st, s, steps).status)
    decreases |steps|
  {
    hide Enabled, After;
    if steps != [] {
      DecisionStands(st, s, steps[0]);
      DecidedOnce(st, After(st, s, steps[0]), steps[1..]);
    }
  }

  /** The rejection that is recorded while the write of an approval is still on its way. */
  function Overtaken(): seq<Step> { [LoseLock] + ([Begin(2, Refusing(Rejected))] + (Gos(2, 2) + ([Go(1)] + []))) }

  /**
   The lock must outlive the attempt: where it is lost while an approval is about to write, a
   rejection can be recorded first, and the change is then live behind it.
   */
  lemma LostLockCanApplyRejected(st: Setting, s: State)
    requires s.status.Pending? && s.lock.None? && s.attempts == map[] && NotProduced(st, s.assets.skill)
    requires Fits(st, ActiveSkill(s.assets.skill), ActiveAgent(s.assets.agent)) && Permitted(st) && !st.creation
    ensures var steps := [Begin(1, Approving)] + Gos(1, 7) + Overtaken();
            && Runs(st, s, steps)
            && var t := End(st, s, steps);
               t.status == Refused(Rejected) && !NotProduced(st, t.assets.skill)
  {
    hide Runs, End, Gos, Change, Overtaken, FirstProduced, Fits;
    RunsNothing(st, Holding(s, 1, Change(st, s.assets)), 1);
    ReachesWrite(st, s, 1, 0);
    var config := ChangeOfUpdate(st, s.assets);
    OvertakenApplies(st, s, config);
    RunsApart(st, s, [Begin(1, Approving)] + Gos(1, 7), Overtaken());
  }

  lemma ChangeOfUpdate(st: Setting, a: Assets) returns (config: Config)
    requires Fits(st, ActiveSkill(a.skill), ActiveAgent(a.agent)) && !st.creation
    ensures Change(st, a) == Write(a.version, config, None)
  {
    config := Change(st, a).config;
  }

  lemma OvertakenApplies(st: Setting, s: State, config: Config)
    requires s.status.Pending? && s.lock.None? && s.attempts == map[] && FirstProduced(st, s.assets.skill).None?
    ensures var held := Holding(s, 1, Write(s.assets.version, config, None));
            && Runs(st, held, Overtaken())
            && var t := End(st, held, Overtaken());
               t.status == Refused(Rejected) && !NotProduced(st, t.assets.skill)
  {
    var held := Holding(s, 1, Write(s.assets.version, config, None));
    var free := held.(lock := None);
    var rejected := free.(status := Refused(Rejected));
    LateWrite(st, rejected, s.assets, config);
    Rejects(st, free);
    assert Enabled(st, held, LoseLock) && After(st, held, LoseLock) == free;
    BeginsHolding(st, free, 2, Refusing(Rejected));
    hide Runs, End, Call, Enabled, After, NotProduced, FirstProduced;
    RunsApart(st, Holding(free, 2, CheckNotApplied(Rejected)), Gos(2, 2), [Go(1)] + []);
    OneMore(st, free, Begin(2, Refusing(Rejected)), Gos(2, 2) + ([Go(1)] + []));
    OneMore(st, held, LoseLock, [Begin(2, Refusing(Rejected))] + (Gos(2, 2) + ([Go(1)] + [])));
  }

  lemma BeginsHolding(st: Setting, s: State, i: nat, work: Work)
    requires i !in s.attempts && s.lock.None? && (if work.Undoing? then s.status.Approved? else s.status.Pending?)
    ensures Enabled(st, s, Begin(i, work)) && After(st, s, Begin(i, work)) == Holding(s, i, FirstPhase(work))
  {
  }

  lemma LateWrite(st: Setting, rejected: State, assets: Assets, config: Config)
    requires rejected.assets == assets && 1 in rejected.attempts
        && rejected.attempts[1] == Write(assets.version, config, None)
    ensures Runs(st, rejected, [Go(1)] + [])
    ensures var t := End(st, rejected, [Go(1)] + []); t.status == rejected.status && !NotProduced(st, t.assets.skill)
  {
    var t := After(st, rejected, Go(1));
    assert t.assets == SkillStored(st, assets, config, false, None);
    assert Produced(st, t.assets.skill[|assets.skill|]);
    OneMore(st, rejected, Go(1), []);
  }

  lemma Rejects(st: Setting, free: State)
    requires 2 !in free.attempts && free.lock.None? && free.status.Pending?
        && FirstProduced(st, free.assets.skill).None?
    ensures var checking := Holding(free, 2, CheckNotApplied(Rejected));
            Runs(st, checking, Gos(2, 2)) && End(st, checking, Gos(2, 2)) == free.(status := Refused(Rejected))
  {
    hide Runs, End, FirstProduced;
    Commits(st, free, 2, Refuse(Rejected));
    assert Gos(2, 0) == [] && Gos(2, 1) == [Go(2)] + Gos(2, 0) && Gos(2, 2) == [Go(2)] + Gos(2, 1);
    GoesOn(st, free, 2, CheckNotApplied(Rejected), Finish(Refuse(Rejected)), Gos(2, 1));
  }

  lemma {:induction false} RunsApart(st: Setting, s: State, a: seq<Step>, b: seq<Step>)
    requires Runs(st, s, a) && Runs(st, End(st, s, a), b)
    ensures Runs(st, s, a + b) && End(st, s, a + b) == End(st, End(st, s, a), b)
    decreases |a|
  {
    hide Enabled, After;
    if a == [] {
      assert a + b == b;
    } else {
      assert (a + b)[0] == a[0] && (a + b)[1..] == a[1..] + b;
      RunsApart(st, After(st, s, a[0]), a[1..], b);
    }
  }
}
