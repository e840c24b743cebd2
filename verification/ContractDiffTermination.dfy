/**
 Where a comparison ends: over pairs with a rank, and so where one document does not refer to
 itself. And where it does not: over a set of pairs, none of two references, that leads back into
 itself. For documents without alternatives the two are one the opposite of the other.
 */
module ContractDiffTermination {
  import opened SetSizes
  import opened Optional
  import opened JsonSchema
  import opened ContractDiff
  import opened ContractDiffSoundness
  import opened ContractDiffLimits

  // ----- where a comparison ends

  /**
   A rank of the pairs a comparison meets: it falls from a pair to every pair the comparison goes
   on to, except from a pair of two references, after which it starts again below `top`.
   `keys` are the pairs of references that can be met, and every chain of references ends within
   `chain` steps.
   */
  ghost predicate Ranked(st: Setting, pairs: iset<(Schema, Schema)>, rank: ((Schema, Schema)) -> nat, top: nat,
      keys: set<string>, chain: nat)
  {
    && (forall before, after :: (before, after) in pairs ==>
          && Resolve(st.docs.before, before, chain).Node? && Resolve(st.docs.after, after, chain).Node?
          && rank((before, after)) <= top
          && (before.ref.Some? && after.ref.Some? ==> PairKey(before.ref.value, after.ref.value) in keys))
    && (forall before, after :: (before, after) in pairs ==>
          LeadsTo(st, pairs, rank, Resolve(st.docs.before, before, chain).schema,
              Resolve(st.docs.after, after, chain).schema,
                  if before.ref.Some? && after.ref.Some? then top + 1 else rank((before, after))))
  }

  ghost predicate LeadsTo(st: Setting, pairs: iset<(Schema, Schema)>, rank: ((Schema, Schema)) -> nat,
      before: Schema, after: Schema, limit: nat)
  {
    && LeadsOnlyTo(st, before, after, iset pair | pair in pairs && rank(pair) < limit)
  }

  lemma {:induction false} MoreFuelResolves(components: Components, s: Schema, less: nat, more: nat)
    requires less <= more && Resolve(components, s, less).Node?
    ensures Resolve(components, s, more) == Resolve(components, s, less)
    decreases less
  {
    if s.ref.Some? {
      MoreFuelResolves(components, components[RefName(s.ref.value)], less - 1, more - 1);
    }
  }

  /** The calls that can still be nested: a full descent for every pair of references left, and this one. */
  function Nested(left: nat, top: nat, rank: nat): nat
  {
    Descents(left, top) + rank
  }

  function Descents(left: nat, top: nat): nat
  {
    if left == 0 then 0 else Descents(left - 1, top) + top + 2
  }

  function Left(keys: set<string>, compared: set<string>): nat
  {
    |keys - compared|
  }

  lemma FewerLeft(keys: set<string>, compared: set<string>, more: set<string>)
    requires compared <= more
    ensures Left(keys, more) <= Left(keys, compared)
  {
    SubsetIsSmaller(keys - more, keys - compared);
  }

  /** A comparison over ranked pairs ends, and it never forgets a pair. */
  lemma {:induction false} RankedEnds(st: Setting, pairs: iset<(Schema, Schema)>, rank: ((Schema, Schema)) -> nat,
      top: nat, keys: set<string>, chain: nat, fuel: nat, compared: set<string>, before: Schema, after: Schema,
      where: string)
    requires Ranked(st, pairs, rank, top, keys, chain) && (before, after) in pairs
    requires fuel > chain + Nested(Left(keys, compared), top, rank((before, after)))
    ensures var r := CompareNodes(st.docs, st.direction, fuel, compared, before, after, where);
            r.Done? && compared <= r.compared
    decreases fuel, 1, 0
  {
    var named := before.ref.Some? && after.ref.Some?;
    if named && PairKey(before.ref.value, after.ref.value) in compared {
      return;
    }
    hide CompareNodes, CompareResolved, Resolve, LeadsTo, PairKey;
    MoreFuelResolves(st.docs.before, before, chain, fuel);
    MoreFuelResolves(st.docs.after, after, chain, fuel);
    var limit := if named then top + 1 else rank((before, after));
    if named {
      OneLessLeft(keys, compared, PairKey(before.ref.value, after.ref.value), top);
    }
    NodeStep(st.docs, st.direction, fuel, compared, before, after, where);
    RankedNodesEnd(st, pairs, rank, top, keys, chain, fuel - 1, Marked(compared, before, after),
                   Resolve(st.docs.before, before, fuel).schema, Resolve(st.docs.after, after, fuel).schema, where,
                       limit);
  }

  lemma OneLessLeft(keys: set<string>, compared: set<string>, key: string, top: nat)
    requires key in keys && key !in compared
    ensures Nested(Left(keys, compared), top, 0) == Nested(Left(keys, compared + {key}), top, top + 2)
  {
    assert keys - compared == (keys - (compared + {key})) + {key};
    assert Left(keys, compared) == Left(keys, compared + {key}) + 1;
  }

  lemma {:induction false} RankedNodesEnd(st: Setting, pairs: iset<(Schema, Schema)>,
      rank: ((Schema, Schema)) -> nat, top: nat, keys: set<string>, chain: nat, fuel: nat, compared: set<string>,
      before: Schema, after: Schema, where: string, limit: nat)
    requires Ranked(st, pairs, rank, top, keys, chain) && LeadsTo(st, pairs, rank, before, after, limit)
    requires fuel + 1 > chain + Nested(Left(keys, compared), top, limit)
    ensures var r := CompareResolved(st.docs, st.direction, fuel, compared, before, after, where);
            r.Done? && compared <= r.compared
    decreases fuel, 4, 0
  {
    var narrow, wide := st.NarrowOf(before, after), st.WideOf(before, after);
    if Alternatives(narrow).Some? || Alternatives(wide).Some? {
      RankedOptionsEnd(st, pairs, rank, top, keys, chain, fuel, compared, Options(narrow), 0, Options(wide), where,
          limit);
    } else if TypesKept(narrow, wide) {
      RankedTasksEnd(st, pairs, rank, top, keys, chain, fuel, compared,
          NodeTasks(st.direction, before, after, where), limit);
    }
  }

  lemma {:induction false} RankedTasksEnd(st: Setting, pairs: iset<(Schema, Schema)>,
      rank: ((Schema, Schema)) -> nat, top: nat, keys: set<string>, chain: nat, fuel: nat, compared: set<string>,
      tasks: seq<Task>, limit: nat)
    requires Ranked(st, pairs, rank, top, keys, chain)
    requires forall t :: t in tasks && t.Descend? ==> (t.before, t.after) in pairs && rank((t.before, t.after)) < limit
    requires fuel + 1 > chain + Nested(Left(keys, compared), top, limit)
    ensures var r := RunTasks(st.docs, st.direction, fuel, compared, tasks);
            r.Done? && compared <= r.compared
    decreases fuel, 2, |tasks|
  {
    if tasks != [] {
      var t := tasks[0];
      assert t in tasks;
      var next := compared;
      if t.Descend? {
        RankedEnds(st, pairs, rank, top, keys, chain, fuel, compared, t.before, t.after, t.where);
        next := CompareNodes(st.docs, st.direction, fuel, compared, t.before, t.after, t.where).compared;
        FewerLeft(keys, compared, next);
        LessNested(Left(keys, next), Left(keys, compared), top, limit);
      }
      RankedTasksEnd(st, pairs, rank, top, keys, chain, fuel, next, tasks[1..], limit);
    }
  }

  lemma {:induction false} LessNested(less: nat, more: nat, top: nat, rank: nat)
    requires less <= more
    ensures Nested(less, top, rank) <= Nested(more, top, rank)
  {
    if less < more { LessNested(less, more - 1, top, rank); }
  }

  lemma {:induction false} RankedOptionsEnd(st: Setting, pairs: iset<(Schema, Schema)>,
      rank: ((Schema, Schema)) -> nat, top: nat, keys: set<string>, chain: nat, fuel: nat, compared: set<string>,
      narrow: seq<Schema>, index: nat, wide: seq<Schema>, where: string, limit: nat)
    requires Ranked(st, pairs, rank, top, keys, chain) && index <= |narrow|
    requires forall option, candidate :: option in narrow && candidate in wide ==>
               OptionPair(st, option, candidate) in pairs && rank(OptionPair(st, option, candidate)) < limit
    requires fuel + 1 > chain + Nested(Left(keys, compared), top, limit)
    ensures var r := CompareOptions(st.docs, st.direction, fuel, compared, narrow, index, wide, where);
            r.Done? && r.compared == compared
    decreases fuel, 3, |narrow| - index
  {
    if index < |narrow| {
      RankedTrialsEnd(st, pairs, rank, top, keys, chain, fuel, compared, narrow[index], wide, where, limit);
      RankedOptionsEnd(st, pairs, rank, top, keys, chain, fuel, compared, narrow, index + 1, wide, where, limit);
    }
  }

  lemma {:induction false} RankedTrialsEnd(st: Setting, pairs: iset<(Schema, Schema)>,
      rank: ((Schema, Schema)) -> nat, top: nat, keys: set<string>, chain: nat, fuel: nat, compared: set<string>,
      option: Schema, candidates: seq<Schema>, where: string, limit: nat)
    requires Ranked(st, pairs, rank, top, keys, chain)
    requires forall candidate :: candidate in candidates ==>
               OptionPair(st, option, candidate) in pairs && rank(OptionPair(st, option, candidate)) < limit
    requires fuel + 1 > chain + Nested(Left(keys, compared), top, limit)
    ensures CoveringOption(st.docs, st.direction, fuel, compared, option, candidates, where).Covered?
    decreases fuel, 2, |candidates|
  {
    if candidates != [] {
      assert candidates[0] in candidates;
      RankedEnds(st, pairs, rank, top, keys, chain, fuel, compared,
                 st.NarrowOf(option, candidates[0]), st.WideOf(option, candidates[0]), where);
      RankedTrialsEnd(st, pairs, rank, top, keys, chain, fuel, compared, option, candidates[1..], where, limit);
    }
  }

  // ----- documents of which one does not refer to itself

  /** The schemas of a document get lower towards their parts. */
  ghost predicate Acyclic(components: Components, known: iset<Schema>, height: Schema -> nat)
  {
    forall s :: s in known ==>
      && (s.ref.Some? && RefName(s.ref.value) in components ==> height(components[RefName(s.ref.value)]) <= height(s))
      && (forall part :: Part(s, part) ==> height(part) < height(s))
  }

  /** The alternatives of a document do not go round. */
  ghost predicate AlternativesEnd(components: Components, known: iset<Schema>, turns: Schema -> nat)
  {
    forall s :: s in known ==>
      && (s.ref.Some? && RefName(s.ref.value) in components ==> turns(components[RefName(s.ref.value)]) <= turns(s))
      && (Alternatives(s).Some? ==> forall option :: option in Options(s) ==> turns(option) < turns(s))
  }

  ghost predicate Part(s: Schema, part: Schema)
  {
    || (Alternatives(s).Some? && part in Options(s))
    || (exists i :: 0 <= i < |PropertiesOf(s)| && PropertiesOf(s)[i].schema == part)
    || s.items == Some(part)
    || s.additional == Values(part)
  }

  /**
   Which document is acyclic, the heights of its schemas and the turns of the alternatives of the
   other one. Both are finite: `tallest`, `most` and `chain` bound the heights, the turns and the
   chains of references.
   */
  datatype Heights = Heights(oldIsAcyclic: bool, height: Schema -> nat, turns: Schema -> nat, tallest: nat,
      most: nat, chain: nat) {
    function Height(before: Schema, after: Schema): nat { height(if oldIsAcyclic then before else after) }

    function Turns(before: Schema, after: Schema): nat { turns(if oldIsAcyclic then after else before) }

    function Rank(): ((Schema, Schema)) -> nat
    {
      (pair: (Schema, Schema)) => Descent(Height(pair.0, pair.1), Turns(pair.0, pair.1), most)
    }

    ghost predicate Of(docs: Documents, known: Known)
    {
      if oldIsAcyclic then Acyclic(docs.before, known.before, height) && AlternativesEnd(docs.after, known.after, turns)
      else Acyclic(docs.after, known.after, height) && AlternativesEnd(docs.before, known.before, turns)
    }

    ghost predicate Bound(docs: Documents, known: Known)
    {
      && (forall b, a :: b in known.before && a in known.after ==> Height(b, a) <= tallest && Turns(b, a) <= most)
      && (forall s :: s in known.before ==> Resolve(docs.before, s, chain).Node?)
      && (forall s :: s in known.after ==> Resolve(docs.after, s, chain).Node?)
    }
  }

  /** A step of `most + 1` for every height, and the turns within it. */
  function Descent(height: nat, turns: nat, most: nat): nat
  {
    if height == 0 then turns else Descent(height - 1, turns, most) + most + 1
  }

  ghost function AllPairs(known: Known): iset<(Schema, Schema)>
  {
    iset pair: (Schema, Schema) | pair.0 in known.before && pair.1 in known.after
  }

  lemma {:induction false} ResolvesLower(components: Components, known: iset<Schema>, measure: Schema -> nat,
      s: Schema, fuel: nat)
    requires WellFormed(components, known) && s in known
    requires Acyclic(components, known, measure) || AlternativesEnd(components, known, measure)
    requires Resolve(components, s, fuel).Node?
    ensures measure(Resolve(components, s, fuel).schema) <= measure(s)
    decreases fuel
  {
    if s.ref.Some? {
      assert RefersWell(components, known, s);
      ResolvesLower(components, known, measure, components[RefName(s.ref.value)], fuel - 1);
    }
  }

  /** A lower schema of the acyclic side lowers the rank whatever the other one is. */
  lemma {:induction false} LowerDescent(h: nat, t: nat, h': nat, t': nat, most: nat)
    requires t' <= most && (h' < h || (h' <= h && t' < t))
    ensures Descent(h', t', most) < Descent(h, t, most)
  {
    if h' < h {
      FromHeight(h', t', h, most);
      NoHigherDescent(h, t, h, 0, most);
    } else if h > 0 {
      LowerDescent(h - 1, t, h' - 1, t', most);
    }
  }

  lemma {:induction false} FromHeight(h': nat, t': nat, h: nat, most: nat)
    requires t' <= most && h' < h
    ensures Descent(h', t', most) < Descent(h, 0, most)
  {
    if h' < h - 1 {
      FromHeight(h', t', h - 1, most);
    } else {
      WithTurns(h', t', most);
    }
  }

  lemma {:induction false} WithTurns(h: nat, t: nat, most: nat)
    ensures Descent(h, t, most) == Descent(h, 0, most) + t
  {
    if h > 0 { WithTurns(h - 1, t, most); }
  }

  lemma {:induction false} NoHigherDescent(h: nat, t: nat, h': nat, t': nat, most: nat)
    requires t' <= t && h' <= h
    ensures Descent(h', t', most) <= Descent(h, t, most)
  {
    if h' > 0 {
      NoHigherDescent(h - 1, t, h' - 1, t', most);
    } else if h > 0 {
      NoHigherDescent(h - 1, t, 0, t', most);
    }
  }

  lemma DescendsLower(st: Setting, known: Known, h: Heights, before: Schema, after: Schema)
    requires BothWellFormed(st.docs, known) && h.Of(st.docs, known) && h.Bound(st.docs, known)
    requires before in known.before && after in known.after
    ensures LeadsTo(st, AllPairs(known), h.Rank(), before, after, h.Rank()((before, after)))
  {
    var rank := h.Rank();
    if Alternatives(before).Some? || Alternatives(after).Some? {
      forall b, a | b in Options(before) && a in Options(after)
        ensures (b, a) in AllPairs(known) && rank((b, a)) < rank((before, after))
      {
        OptionLower(st, known, h, before, after, b, a);
      }
    } else {
      forall where, t | t in NodeTasks(st.direction, before, after, where) && t.Descend?
        ensures (t.before, t.after) in AllPairs(known) && rank((t.before, t.after)) < rank((before, after))
      {
        PartLower(st, known, h, before, after, where, t);
      }
    }
  }

  lemma OptionLower(st: Setting, known: Known, h: Heights, before: Schema, after: Schema, b: Schema, a: Schema)
    requires BothWellFormed(st.docs, known) && h.Of(st.docs, known) && h.Bound(st.docs, known)
    requires before in known.before && after in known.after && (Alternatives(before).Some? || Alternatives(after).Some?)
    requires b in Options(before) && a in Options(after)
    ensures b in known.before && a in known.after && h.Rank()((b, a)) < h.Rank()((before, after))
  {
    assert HoldsWell(known.before, before) && HoldsWell(known.after, after);
    assert Alternatives(before).Some? ==> Part(before, b);
    assert Alternatives(after).Some? ==> Part(after, a);
    LowerDescent(h.Height(before, after), h.Turns(before, after), h.Height(b, a), h.Turns(b, a), h.most);
  }

  lemma PartLower(st: Setting, known: Known, h: Heights, before: Schema, after: Schema, where: string, t: Task)
    requires BothWellFormed(st.docs, known) && h.Of(st.docs, known) && h.Bound(st.docs, known)
    requires before in known.before && after in known.after
    requires t in NodeTasks(st.direction, before, after, where) && t.Descend?
    ensures t.before in known.before && t.after in known.after
    ensures h.Rank()((t.before, t.after)) < h.Rank()((before, after))
  {
    DescendsWell(st.docs, known, st.direction, before, after, where, t);
    DescendsToParts(st.direction, before, after, where, t);
    LowerDescent(h.Height(before, after), h.Turns(before, after), h.Height(t.before, t.after),
        h.Turns(t.before, t.after), h.most);
  }

  lemma DescendsToParts(direction: Direction, before: Schema, after: Schema, where: string, t: Task)
    requires t in NodeTasks(direction, before, after, where) && t.Descend?
    ensures Part(before, t.before) && Part(after, t.after)
  {
    NodeTaskOf(direction, before, after, where, t);
    if t in FieldTasks(direction, PropertiesOf(before), before, after, where) {
      FieldTaskOf(direction, PropertiesOf(before), before, after, where, t);
      var name :| Declared(PropertiesOf(after), name) == Some(t.after);
    }
  }

  /**
   Where one of the two documents does not refer to itself and the alternatives of the other do
   not go round, every comparison of the two ends. `keys` holds the pairs of references.
   */
  lemma AcyclicEnds(st: Setting, known: Known, h: Heights, keys: set<string>, before: Schema, after: Schema,
      where: string)
    requires BothWellFormed(st.docs, known) && h.Of(st.docs, known) && h.Bound(st.docs, known)
    requires before in known.before && after in known.after
    requires forall b, a :: b in known.before && a in known.after && b.ref.Some? && a.ref.Some? ==>
        PairKey(b.ref.value, a.ref.value) in keys
    ensures exists fuel: nat :: CompareSchemas(st.docs, st.direction, fuel, before, after, where).Done?
  {
    var top := Descent(h.tallest, h.most, h.most);
    forall b, a | (b, a) in AllPairs(known)
      ensures h.Rank()((b, a)) <= top
      ensures LeadsTo(st, AllPairs(known), h.Rank(), Resolve(st.docs.before, b, h.chain).schema,
          Resolve(st.docs.after, a, h.chain).schema,
                      if b.ref.Some? && a.ref.Some? then top + 1 else h.Rank()((b, a)))
    {
      AcyclicPair(st, known, h, b, a);
    }
    assert Ranked(st, AllPairs(known), h.Rank(), top, keys, h.chain);
    SomeFuelEnds(st, AllPairs(known), h.Rank(), top, keys, h.chain, before, after, where);
  }

  lemma SomeFuelEnds(st: Setting, pairs: iset<(Schema, Schema)>, rank: ((Schema, Schema)) -> nat, top: nat,
      keys: set<string>, chain: nat, before: Schema, after: Schema, where: string)
    requires Ranked(st, pairs, rank, top, keys, chain) && (before, after) in pairs
    ensures exists fuel: nat :: CompareSchemas(st.docs, st.direction, fuel, before, after, where).Done?
  {
    var fuel := chain + Nested(Left(keys, {}), top, rank((before, after))) + 1;
    RankedEnds(st, pairs, rank, top, keys, chain, fuel, {}, before, after, where);
    assert CompareSchemas(st.docs, st.direction, fuel, before, after, where).Done?;
  }

  lemma AcyclicPair(st: Setting, known: Known, h: Heights, b: Schema, a: Schema)
    requires BothWellFormed(st.docs, known) && h.Of(st.docs, known) && h.Bound(st.docs, known)
    requires b in known.before && a in known.after
    ensures h.Rank()((b, a)) <= Descent(h.tallest, h.most, h.most)
    ensures LeadsTo(st, AllPairs(known), h.Rank(), Resolve(st.docs.before, b, h.chain).schema,
        Resolve(st.docs.after, a, h.chain).schema,
                    h.Rank()((b, a)))
  {
    var b', a' := Resolve(st.docs.before, b, h.chain).schema, Resolve(st.docs.after, a, h.chain).schema;
    ResolvesLower(st.docs.before, known.before, if h.oldIsAcyclic then h.height else h.turns, b, h.chain);
    ResolvesLower(st.docs.after, known.after, if h.oldIsAcyclic then h.turns else h.height, a, h.chain);
    ResolvesWell(st.docs.before, known.before, b, h.chain);
    ResolvesWell(st.docs.after, known.after, a, h.chain);
    NoHigherDescent(h.Height(b, a), h.Turns(b, a), h.Height(b', a'), h.Turns(b', a'), h.most);
    NoHigherDescent(h.tallest, h.most, h.Height(b, a), h.Turns(b, a), h.most);
    DescendsLower(st, known, h, b', a');
  }

  /** An acyclic document compared with itself: the comparison ends, and finds nothing. */
  lemma AcyclicSelfFindsNothing(components: Components, direction: Direction, known: iset<Schema>, h: Heights,
      keys: set<string>, s: Schema, where: string)
    requires WellFormed(components, known) && s in known && h.turns == h.height
    requires Acyclic(components, known, h.height) && h.Bound(Documents(components, components), Known(known, known))
    requires forall b, a :: b in known && a in known && b.ref.Some? && a.ref.Some? ==>
        PairKey(b.ref.value, a.ref.value) in keys
    ensures exists fuel: nat ::
        EndsSilent(CompareSchemas(Documents(components, components), direction, fuel, s, s, where))
  {
    var docs, both := Documents(components, components), Known(known, known);
    var st := Setting(docs, direction, (name, text, v) => true);
    assert AlternativesEnd(components, known, h.turns) by {
      assert forall t, option :: Alternatives(t).Some? && option in Options(t) ==> Part(t, option);
    }
    AcyclicEnds(st, both, h, keys, s, s, where);
    var fuel: nat :| CompareSchemas(docs, direction, fuel, s, s, where).Done?;
    SelfIsSilent(components, known, direction, fuel, {}, s, where);
    assert EndsSilent(CompareSchemas(docs, direction, fuel, s, s, where));
  }

  // ----- where a comparison never ends

  predicate TwoReferences(before: Schema, after: Schema) { before.ref.Some? && after.ref.Some? }

  /** The first node holds `b` where the second holds `a`: as a field, as items or as map values. */
  predicate HoldsPair(before: Schema, after: Schema, b: Schema, a: Schema)
  {
    || (exists i :: 0 <= i < |PropertiesOf(before)| && PropertiesOf(before)[i].schema == b
                    && Declared(PropertiesOf(after), PropertiesOf(before)[i].name) == Some(a))
    || (before.items == Some(b) && after.items == Some(a))
    || (before.additional == Values(b) && after.additional == Values(a))
  }

  predicate HasOptions(before: Schema, after: Schema) { Alternatives(before).Some? || Alternatives(after).Some? }

  /** The comparison of two nodes comes to a pair of the set, whatever it finds on its way. */
  ghost predicate GoesOn(st: Setting, before: Schema, after: Schema, pairs: iset<(Schema, Schema)>)
  {
    var narrow, wide := st.NarrowOf(before, after), st.WideOf(before, after);
    if HasOptions(before, after) then
      Options(wide) != [] && exists option ::
          option in Options(narrow) && OptionPair(st, option, Options(wide)[0]) in pairs
    else
      TypesKept(narrow, wide) && exists b, a :: HoldsPair(before, after, b, a) && (b, a) in pairs
  }

  /** As `GoesOn`, but a later alternative is tried only where the ones before it do not cover. */
  ghost predicate MayGoOn(st: Setting, before: Schema, after: Schema, pairs: iset<(Schema, Schema)>)
  {
    var narrow, wide := st.NarrowOf(before, after), st.WideOf(before, after);
    if HasOptions(before, after) then
      exists option, candidate ::
          option in Options(narrow) && candidate in Options(wide) && OptionPair(st, option, candidate) in pairs
    else
      TypesKept(narrow, wide) && exists b, a :: HoldsPair(before, after, b, a) && (b, a) in pairs
  }

  function OptionPair(st: Setting, option: Schema, candidate: Schema): (Schema, Schema)
  {
    (st.NarrowOf(option, candidate), st.WideOf(option, candidate))
  }

  /** None of the pairs is of two references, and from each the comparison comes to one of them again. */
  ghost predicate GoesRound(st: Setting, pairs: iset<(Schema, Schema)>)
  {
    forall before, after :: (before, after) in pairs ==>
      && !TwoReferences(before, after)
      && forall b, a :: ResolvesTo(st.docs.before, before, b) && ResolvesTo(st.docs.after, after, a) ==>
          GoesOn(st, b, a, pairs)
  }

  ghost predicate MayGoRound(st: Setting, pairs: iset<(Schema, Schema)>)
  {
    forall before, after :: (before, after) in pairs ==>
      && !TwoReferences(before, after)
      && forall b, a :: ResolvesTo(st.docs.before, before, b) && ResolvesTo(st.docs.after, after, a) ==>
          MayGoOn(st, b, a, pairs)
  }

  lemma HeldIsCompared(direction: Direction, before: Schema, after: Schema, where: string, b: Schema, a: Schema)
      returns (t: Task)
    requires HoldsPair(before, after, b, a)
    ensures t in NodeTasks(direction, before, after, where) && t.Descend? && t.before == b && t.after == a
  {
    if i :| 0 <= i < |PropertiesOf(before)| && PropertiesOf(before)[i].schema == b
            && Declared(PropertiesOf(after), PropertiesOf(before)[i].name) == Some(a) {
      t := FieldIsCompared(direction, PropertiesOf(before), i, before, after, where);
    } else if before.items == Some(b) && after.items == Some(a) {
      t := Descend(b, a, where + "[]");
      assert t in PartTasks(before, after, where);
    } else {
      t := Descend(b, a, where + ".*");
      assert t in PartTasks(before, after, where);
    }
  }

  lemma {:induction false} FieldIsCompared(direction: Direction, fields: seq<Property>, i: nat, before: Schema,
      after: Schema, where: string)
    returns (t: Task)
    requires i < |fields| && Declared(PropertiesOf(after), fields[i].name).Some?
    ensures t in FieldTasks(direction, fields, before, after, where) && t.Descend?
    ensures t.before == fields[i].schema && Some(t.after) == Declared(PropertiesOf(after), fields[i].name)
  {
    if i == 0 {
      t := FieldTask(direction, fields[0], before, after, where)[0];
    } else {
      t := FieldIsCompared(direction, fields[1..], i - 1, before, after, where);
    }
  }

  lemma ComparedIsHeld(direction: Direction, before: Schema, after: Schema, where: string, t: Task)
    requires t in NodeTasks(direction, before, after, where) && t.Descend?
    ensures HoldsPair(before, after, t.before, t.after)
  {
    NodeTaskOf(direction, before, after, where, t);
    if t in FieldTasks(direction, PropertiesOf(before), before, after, where) {
      FieldTaskOf(direction, PropertiesOf(before), before, after, where, t);
    }
  }

  /** A comparison that goes round never ends, whatever has been compared before. */
  lemma {:induction false} GoingRoundNeverEnds(st: Setting, pairs: iset<(Schema, Schema)>, fuel: nat,
      compared: set<string>, before: Schema, after: Schema, where: string)
    requires GoesRound(st, pairs) && (before, after) in pairs
    ensures !CompareNodes(st.docs, st.direction, fuel, compared, before, after, where).Done?
    decreases fuel, 1, 0
  {
    if fuel > 0 && Resolve(st.docs.before, before, fuel).Node? && Resolve(st.docs.after, after, fuel).Node? {
      var b, a := Resolve(st.docs.before, before, fuel).schema, Resolve(st.docs.after, after, fuel).schema;
      assert ResolvesTo(st.docs.before, before, b) && ResolvesTo(st.docs.after, after, a);
      NodeStep(st.docs, st.direction, fuel, compared, before, after, where);
      hide CompareNodes, CompareResolved, Resolve;
      GoingOnNeverEnds(st, pairs, fuel - 1, Marked(compared, before, after), b, a, where);
    }
  }

  lemma {:induction false} GoingOnNeverEnds(st: Setting, pairs: iset<(Schema, Schema)>, fuel: nat,
      compared: set<string>, before: Schema, after: Schema, where: string)
    requires GoesRound(st, pairs) && GoesOn(st, before, after, pairs)
    ensures !CompareResolved(st.docs, st.direction, fuel, compared, before, after, where).Done?
    decreases fuel, 4, 0
  {
    if HasOptions(before, after) {
      OptionsNeverEnd(st, pairs, fuel, compared, Options(st.NarrowOf(before, after)), 0,
          Options(st.WideOf(before, after)), where);
    } else {
      var b, a :| HoldsPair(before, after, b, a) && (b, a) in pairs;
      var t := HeldIsCompared(st.direction, before, after, where, b, a);
      TasksNeverEnd(st, pairs, fuel, compared, NodeTasks(st.direction, before, after, where), t);
    }
  }

  lemma {:induction false} TasksNeverEnd(st: Setting, pairs: iset<(Schema, Schema)>, fuel: nat,
      compared: set<string>, tasks: seq<Task>, t: Task)
    requires GoesRound(st, pairs) && t in tasks && t.Descend? && (t.before, t.after) in pairs
    ensures !RunTasks(st.docs, st.direction, fuel, compared, tasks).Done?
    decreases fuel, 2, |tasks|
  {
    hide GoesRound;
    if tasks[0] == t {
      GoingRoundNeverEnds(st, pairs, fuel, compared, t.before, t.after, t.where);
    } else {
      var next := compared;
      if tasks[0].Descend? {
        var first :=
            CompareNodes(st.docs, st.direction, fuel, compared, tasks[0].before, tasks[0].after, tasks[0].where);
        if !first.Done? { return; }
        next := first.compared;
      }
      TasksNeverEnd(st, pairs, fuel, next, tasks[1..], t);
    }
  }

  lemma {:induction false} OptionsNeverEnd(st: Setting, pairs: iset<(Schema, Schema)>, fuel: nat, compared: set<string>,
                                           narrow: seq<Schema>, index: nat, wide: seq<Schema>, where: string)
    requires GoesRound(st, pairs) && index <= |narrow| && wide != []
    requires exists option :: option in narrow[index..] && OptionPair(st, option, wide[0]) in pairs
    ensures !CompareOptions(st.docs, st.direction, fuel, compared, narrow, index, wide, where).Done?
    decreases fuel, 3, |narrow| - index
  {
    hide GoesRound;
    var option :| option in narrow[index..] && OptionPair(st, option, wide[0]) in pairs;
    if option == narrow[index] {
      GoingRoundNeverEnds(st, pairs, fuel, compared, st.NarrowOf(option, wide[0]), st.WideOf(option, wide[0]), where);
    } else {
      assert narrow[index..] == [narrow[index]] + narrow[index + 1..];
      OptionsNeverEnd(st, pairs, fuel, compared, narrow, index + 1, wide, where);
    }
  }

  /** Of well-formed documents, such a comparison takes all the fuel there is. */
  lemma GoingRoundRunsOut(st: Setting, pairs: iset<(Schema, Schema)>, known: Known, fuel: nat, compared: set<string>,
                          before: Schema, after: Schema, where: string)
    requires GoesRound(st, pairs) && (before, after) in pairs
    requires BothWellFormed(st.docs, known) && before in known.before && after in known.after
    ensures CompareNodes(st.docs, st.direction, fuel, compared, before, after, where).OutOfFuel?
  {
    GoingRoundNeverEnds(st, pairs, fuel, compared, before, after, where);
    NothingMissing(st.docs, known, st.direction, fuel, compared, before, after, where);
  }

  // ----- two documents that go round

  function ObjectWith(name: string, schema: Schema): Schema
  {
    ANYTHING.(types := Some(["object"]), properties := Some([Property(name, schema)]))
  }

  /** An object whose fields `p` and `q` take turns, named before the change where it holds `p`. */
  const OUT_OF_STEP := Documents(map["X" := ObjectWith("p", FIELD_Q)], map["Y" := ObjectWith("q", FIELD_P)])

  const FIELD_P := ObjectWith("p", ReferenceTo("Y"))
  const FIELD_Q := ObjectWith("q", ReferenceTo("X"))

  /**
   The same values before and after, the name moved by one field: the two references never meet,
   and the comparison goes round for ever.
   */
  lemma OutOfStepNeverEnds(st: Setting, fuel: nat, compared: set<string>, where: string)
    requires st.docs == OUT_OF_STEP
    ensures CompareNodes(OUT_OF_STEP, st.direction, fuel, compared, ReferenceTo("X"), FIELD_P, where).OutOfFuel?
  {
    var known :=
        Known(iset{ReferenceTo("X"), FIELD_Q, ObjectWith("p", FIELD_Q)},
        iset{ReferenceTo("Y"), FIELD_P, ObjectWith("q", FIELD_P)});
    TakesTurns("p", FIELD_Q, "X", "q");
    TakesTurns("q", FIELD_P, "Y", "p");
    hide WellFormed;
    var pairs := iset{(ReferenceTo("X"), FIELD_P), (FIELD_Q, ReferenceTo("Y"))};
    forall b, a | ResolvesTo(OUT_OF_STEP.before, ReferenceTo("X"), b) && ResolvesTo(OUT_OF_STEP.after, FIELD_P, a)
      ensures GoesOn(st, b, a, pairs)
    {
      OnlyNode(OUT_OF_STEP.before, "X", b);
      SameField(st, "p", FIELD_Q, ReferenceTo("Y"), pairs);
    }
    forall b, a | ResolvesTo(OUT_OF_STEP.before, FIELD_Q, b) && ResolvesTo(OUT_OF_STEP.after, ReferenceTo("Y"), a)
      ensures GoesOn(st, b, a, pairs)
    {
      OnlyNode(OUT_OF_STEP.after, "Y", a);
      SameField(st, "q", ReferenceTo("X"), FIELD_P, pairs);
    }
    GoingRoundRunsOut(st, pairs, known, fuel, compared, ReferenceTo("X"), FIELD_P, where);
  }

  /** A schema of one field, in which another one of one field refers back to it. */
  lemma TakesTurns(name: string, field: Schema, self: string, back: string)
    requires field == ObjectWith(back, ReferenceTo(self)) && RefName(self) == self
    ensures WellFormed(map[self := ObjectWith(name, field)], iset{ReferenceTo(self), field, ObjectWith(name, field)})
  {
    var known := iset{ReferenceTo(self), field, ObjectWith(name, field)};
    assert PropertiesOf(field)[0] == Property(back, ReferenceTo(self));
    assert PropertiesOf(ObjectWith(name, field))[0] == Property(name, field);
    assert HoldsWell(known, ReferenceTo(self));
    assert HoldsWell(known, field);
    assert HoldsWell(known, ObjectWith(name, field));
    hide HoldsWell;
  }

  lemma OnlyNode(components: Components, name: string, node: Schema)
    requires RefName(name) in components && components[RefName(name)].ref.None?
        && ResolvesTo(components, ReferenceTo(name), node)
    ensures node == components[RefName(name)]
  {
    var fuel: nat :| Resolve(components, ReferenceTo(name), fuel) == Node(node);
    if fuel > 0 { ReferenceResolves(components, name, fuel); }
  }

  lemma SameField(st: Setting, name: string, b: Schema, a: Schema, pairs: iset<(Schema, Schema)>)
    requires (b, a) in pairs
    ensures GoesOn(st, ObjectWith(name, b), ObjectWith(name, a), pairs)
  {
    var before, after := ObjectWith(name, b), ObjectWith(name, a);
    assert PropertiesOf(before)[0].schema == b && Declared(PropertiesOf(after), name) == Some(a);
    assert HoldsPair(before, after, b, a);
  }

  const OWN_ALTERNATIVE := ANYTHING.(anyOf := Some([ReferenceTo("X")]))

  /** A schema that is its own only alternative: no reference on the other side is needed to go round. */
  lemma OwnAlternativeNeverEnds(st: Setting, known: iset<Schema>, fuel: nat, compared: set<string>, before: Schema,
      where: string)
    requires st.docs == Documents(map[], map["X" := OWN_ALTERNATIVE])
    requires WellFormed(map[], known) && before in known && Alternatives(before).None?
    ensures CompareNodes(st.docs, st.direction, fuel, compared, before, ReferenceTo("X"), where).OutOfFuel?
  {
    assert RefersWell(map[], known, before);
    var pairs, both := iset{(before, ReferenceTo("X"))}, Known(known, iset{ReferenceTo("X"), OWN_ALTERNATIVE});
    assert WellFormed(st.docs.after, both.after);
    hide WellFormed;
    forall b, a | ResolvesTo(st.docs.before, before, b) && ResolvesTo(st.docs.after, ReferenceTo("X"), a)
      ensures GoesOn(st, b, a, pairs)
    {
      OnlyNode(st.docs.after, "X", a);
      assert Options(b) == [before] && Options(a) == [ReferenceTo("X")];
      assert Options(st.NarrowOf(b, a))[0] in Options(st.NarrowOf(b, a));
    }
    GoingRoundRunsOut(st, pairs, both, fuel, compared, before, ReferenceTo("X"), where);
  }

  // ----- what never ends goes round

  /** The comparison of this pair does not end, whatever the fuel. */
  ghost predicate NeverEnds(st: Setting, compared: set<string>, before: Schema, after: Schema, where: string)
  {
    forall fuel: nat :: !CompareNodes(st.docs, st.direction, fuel, compared, before, after, where).Done?
  }

  /** A comparison that ends is the same with more fuel, and it never forgets a pair. */
  lemma {:induction false} MoreFuelEndsSame(st: Setting, less: nat, more: nat, compared: set<string>, before: Schema,
      after: Schema, where: string)
    requires less <= more && CompareNodes(st.docs, st.direction, less, compared, before, after, where).Done?
    ensures CompareNodes(st.docs, st.direction, more, compared, before, after, where)
            == CompareNodes(st.docs, st.direction, less, compared, before, after, where)
    ensures compared <= CompareNodes(st.docs, st.direction, less, compared, before, after, where).compared
    decreases less, 0, 0
  {
    if !(TwoReferences(before, after) && PairKey(before.ref.value, after.ref.value) in compared) {
      hide CompareNodes, CompareResolved, Resolve;
      MoreFuelResolves(st.docs.before, before, less, more);
      MoreFuelResolves(st.docs.after, after, less, more);
      NodeStep(st.docs, st.direction, more, compared, before, after, where);
      MoreFuelSameNodes(st, less - 1, more - 1, Marked(compared, before, after),
                        Resolve(st.docs.before, before, less).schema, Resolve(st.docs.after, after, less).schema,
                            where);
    }
  }

  lemma {:induction false} MoreFuelSameNodes(st: Setting, less: nat, more: nat, compared: set<string>,
      before: Schema, after: Schema, where: string)
    requires less <= more && CompareResolved(st.docs, st.direction, less, compared, before, after, where).Done?
    ensures CompareResolved(st.docs, st.direction, more, compared, before, after, where)
            == CompareResolved(st.docs, st.direction, less, compared, before, after, where)
    ensures compared <= CompareResolved(st.docs, st.direction, less, compared, before, after, where).compared
    decreases less, 3, 0
  {
    var narrow, wide := st.NarrowOf(before, after), st.WideOf(before, after);
    if HasOptions(before, after) {
      MoreFuelSameOptions(st, less, more, compared, Options(narrow), 0, Options(wide), where);
    } else if TypesKept(narrow, wide) {
      MoreFuelSameTasks(st, less, more, compared, NodeTasks(st.direction, before, after, where));
    }
  }

  lemma {:induction false} MoreFuelSameTasks(st: Setting, less: nat, more: nat, compared: set<string>, tasks: seq<Task>)
    requires less <= more && RunTasks(st.docs, st.direction, less, compared, tasks).Done?
    ensures RunTasks(st.docs, st.direction, more, compared, tasks)
        == RunTasks(st.docs, st.direction, less, compared, tasks)
    ensures compared <= RunTasks(st.docs, st.direction, less, compared, tasks).compared
    decreases less, 1, |tasks|
  {
    if tasks != [] {
      var next := compared;
      if tasks[0].Descend? {
        MoreFuelEndsSame(st, less, more, compared, tasks[0].before, tasks[0].after, tasks[0].where);
        next := CompareNodes(st.docs, st.direction, less, compared, tasks[0].before, tasks[0].after,
            tasks[0].where).compared;
      }
      MoreFuelSameTasks(st, less, more, next, tasks[1..]);
    }
  }

  lemma {:induction false} MoreFuelSameOptions(st: Setting, less: nat, more: nat, compared: set<string>,
      narrow: seq<Schema>, index: nat, wide: seq<Schema>, where: string)
    requires less <= more && index <= |narrow|
        && CompareOptions(st.docs, st.direction, less, compared, narrow, index, wide, where).Done?
    ensures CompareOptions(st.docs, st.direction, more, compared, narrow, index, wide, where)
            == CompareOptions(st.docs, st.direction, less, compared, narrow, index, wide, where)
    ensures CompareOptions(st.docs, st.direction, less, compared, narrow, index, wide, where).compared == compared
    decreases less, 2, |narrow| - index
  {
    if index < |narrow| {
      MoreFuelSameTrials(st, less, more, compared, narrow[index], wide, where);
      MoreFuelSameOptions(st, less, more, compared, narrow, index + 1, wide, where);
    }
  }

  lemma {:induction false} MoreFuelSameTrials(st: Setting, less: nat, more: nat, compared: set<string>,
      option: Schema, candidates: seq<Schema>, where: string)
    requires less <= more && CoveringOption(st.docs, st.direction, less, compared, option, candidates, where).Covered?
    ensures CoveringOption(st.docs, st.direction, more, compared, option, candidates, where)
            == CoveringOption(st.docs, st.direction, less, compared, option, candidates, where)
    decreases less, 1, |candidates|
  {
    if candidates != [] {
      MoreFuelEndsSame(st, less, more, compared, st.NarrowOf(option, candidates[0]),
          st.WideOf(option, candidates[0]), where);
      if CompareNodes(st.docs, st.direction, less, compared, st.NarrowOf(option, candidates[0]),
          st.WideOf(option, candidates[0]), where).findings != [] {
        MoreFuelSameTrials(st, less, more, compared, option, candidates[1..], where);
      }
    }
  }

  /** Of tasks that are never done with, one is a comparison that never ends. */
  lemma {:induction false} EndlessTask(st: Setting, compared: set<string>, tasks: seq<Task>)
      returns (t: Task, later: set<string>)
    requires forall fuel: nat :: !RunTasks(st.docs, st.direction, fuel, compared, tasks).Done?
    ensures t in tasks && t.Descend? && NeverEnds(st, later, t.before, t.after, t.where) && compared <= later
    decreases |tasks|
  {
    var enough: nat := 0;
    assert !RunTasks(st.docs, st.direction, enough, compared, tasks).Done?;
    t, later := tasks[0], compared;
    if tasks[0].Descend? {
      if NeverEnds(st, compared, t.before, t.after, t.where) { return; }
      enough :| CompareNodes(st.docs, st.direction, enough, compared, t.before, t.after, t.where).Done?;
      later := CompareNodes(st.docs, st.direction, enough, compared, t.before, t.after, t.where).compared;
      MoreFuelEndsSame(st, enough, enough, compared, t.before, t.after, t.where);
    }
    forall fuel: nat ensures !RunTasks(st.docs, st.direction, fuel, later, tasks[1..]).Done? {
      RestEndless(st, compared, tasks, enough, later, fuel);
    }
    t, later := EndlessTask(st, later, tasks[1..]);
  }

  lemma RestEndless(st: Setting, compared: set<string>, tasks: seq<Task>, enough: nat, later: set<string>, fuel: nat)
    requires tasks != [] && forall f: nat :: !RunTasks(st.docs, st.direction, f, compared, tasks).Done?
    requires tasks[0].Report? ==> later == compared
    requires tasks[0].Descend? ==>
               var first :=
                   CompareNodes(st.docs, st.direction, enough, compared, tasks[0].before, tasks[0].after,
                   tasks[0].where);
               first.Done? && first.compared == later
    ensures !RunTasks(st.docs, st.direction, fuel, later, tasks[1..]).Done?
  {
    if RunTasks(st.docs, st.direction, fuel, later, tasks[1..]).Done? {
      var more := fuel + enough;
      MoreFuelSameTasks(st, fuel, more, later, tasks[1..]);
      if tasks[0].Descend? {
        MoreFuelEndsSame(st, enough, more, compared, tasks[0].before, tasks[0].after, tasks[0].where);
      }
      assert RunTasks(st.docs, st.direction, more, compared, tasks).Done?;
    }
  }

  lemma {:induction false} EndlessOption(st: Setting, compared: set<string>, narrow: seq<Schema>, index: nat,
      wide: seq<Schema>, where: string)
    returns (option: Schema, candidate: Schema)
    requires index <= |narrow| && forall fuel: nat ::
        !CompareOptions(st.docs, st.direction, fuel, compared, narrow, index, wide, where).Done?
    ensures option in narrow && candidate in wide
    ensures NeverEnds(st, compared, st.NarrowOf(option, candidate), st.WideOf(option, candidate), where)
    decreases |narrow| - index
  {
    var enough: nat := 0;
    assert !CompareOptions(st.docs, st.direction, enough, compared, narrow, index, wide, where).Done?;
    option := narrow[index];
    if forall fuel: nat :: !CoveringOption(st.docs, st.direction, fuel, compared, option, wide, where).Covered? {
      candidate := EndlessTrial(st, compared, option, wide, where);
      return;
    }
    enough :| CoveringOption(st.docs, st.direction, enough, compared, option, wide, where).Covered?;
    var next := index + 1;
    forall fuel: nat ensures !CompareOptions(st.docs, st.direction, fuel, compared, narrow, next, wide, where).Done? {
      if CompareOptions(st.docs, st.direction, fuel, compared, narrow, next, wide, where).Done? {
        var more := fuel + enough;
        MoreFuelSameOptions(st, fuel, more, compared, narrow, next, wide, where);
        MoreFuelSameTrials(st, enough, more, compared, option, wide, where);
        assert CompareOptions(st.docs, st.direction, more, compared, narrow, index, wide, where).Done?;
      }
    }
    option, candidate := EndlessOption(st, compared, narrow, next, wide, where);
  }

  lemma {:induction false} EndlessTrial(st: Setting, compared: set<string>, option: Schema, candidates: seq<Schema>,
      where: string)
    returns (candidate: Schema)
    requires forall fuel: nat ::
        !CoveringOption(st.docs, st.direction, fuel, compared, option, candidates, where).Covered?
    ensures candidate in candidates
    ensures NeverEnds(st, compared, st.NarrowOf(option, candidate), st.WideOf(option, candidate), where)
    decreases |candidates|
  {
    var enough: nat := 0;
    assert !CoveringOption(st.docs, st.direction, enough, compared, option, candidates, where).Covered?;
    candidate := candidates[0];
    if NeverEnds(st, compared, st.NarrowOf(option, candidate), st.WideOf(option, candidate), where) { return; }
    enough :| CompareNodes(st.docs, st.direction, enough, compared, st.NarrowOf(option, candidate),
        st.WideOf(option, candidate), where).Done?;
    assert !CoveringOption(st.docs, st.direction, enough, compared, option, candidates, where).Covered?;
    forall fuel: nat
        ensures !CoveringOption(st.docs, st.direction, fuel, compared, option, candidates[1..], where).Covered? {
      if CoveringOption(st.docs, st.direction, fuel, compared, option, candidates[1..], where).Covered? {
        MoreFuelSameTrials(st, fuel, fuel + enough, compared, option, candidates[1..], where);
        MoreFuelEndsSame(st, enough, fuel + enough, compared, st.NarrowOf(option, candidate),
            st.WideOf(option, candidate), where);
        assert CoveringOption(st.docs, st.direction, fuel + enough, compared, option, candidates, where).Covered?;
      }
    }
    candidate := EndlessTrial(st, compared, option, candidates[1..], where);
  }

  /** What two well-formed documents are made of, with bounds on their chains of references and their pairs of names. */
  ghost predicate Finite(st: Setting, known: Known, keys: set<string>, chain: nat)
  {
    && BothWellFormed(st.docs, known)
    && (forall s :: s in known.before ==> Resolve(st.docs.before, s, chain).Node?)
    && (forall s :: s in known.after ==> Resolve(st.docs.after, s, chain).Node?)
    && (forall b, a :: b in known.before && a in known.after && TwoReferences(b, a) ==>
        PairKey(b.ref.value, a.ref.value) in keys)
  }

  lemma NodesNeverEnd(st: Setting, chain: nat, compared: set<string>, before: Schema, after: Schema, where: string,
      fuel: nat)
    requires Resolve(st.docs.before, before, chain).Node? && Resolve(st.docs.after, after, chain).Node?
    requires NeverEnds(st, compared, before, after, where)
    ensures !(TwoReferences(before, after) && PairKey(before.ref.value, after.ref.value) in compared)
    ensures !CompareResolved(st.docs, st.direction, fuel, Marked(compared, before, after),
                             Resolve(st.docs.before, before, chain).schema,
                                 Resolve(st.docs.after, after, chain).schema, where).Done?
  {
    var b, a := Resolve(st.docs.before, before, chain).schema, Resolve(st.docs.after, after, chain).schema;
    var more := fuel + chain + 1;
    assert !CompareNodes(st.docs, st.direction, more, compared, before, after, where).Done?;
    MoreFuelResolves(st.docs.before, before, chain, more);
    MoreFuelResolves(st.docs.after, after, chain, more);
    NodeStep(st.docs, st.direction, more, compared, before, after, where);
    if CompareResolved(st.docs, st.direction, fuel, Marked(compared, before, after), b, a, where).Done? {
      MoreFuelSameNodes(st, fuel, more - 1, Marked(compared, before, after), b, a, where);
    }
  }

  /** A comparison that never ends goes on to one that never ends. */
  lemma {:induction false} NextNeverEnds(st: Setting, known: Known, keys: set<string>, chain: nat,
      compared: set<string>, before: Schema, after: Schema, where: string)
    returns (later: set<string>, b: Schema, a: Schema, there: string)
    requires Finite(st, known, keys, chain) && before in known.before && after in known.after
    requires NeverEnds(st, compared, before, after, where)
    ensures Marked(compared, before, after) <= later && NeverEnds(st, later, b, a, there)
    ensures b in known.before && a in known.after
    ensures MayGoOn(st, Resolve(st.docs.before, before, chain).schema, Resolve(st.docs.after, after, chain).schema,
        iset{(b, a)})
  {
    var bn, an := Resolve(st.docs.before, before, chain).schema, Resolve(st.docs.after, after, chain).schema;
    var marked := Marked(compared, before, after);
    ResolvesWell(st.docs.before, known.before, before, chain);
    ResolvesWell(st.docs.after, known.after, after, chain);
    assert HoldsWell(known.before, bn) && HoldsWell(known.after, an);
    forall fuel: nat ensures !CompareResolved(st.docs, st.direction, fuel, marked, bn, an, where).Done? {
      NodesNeverEnd(st, chain, compared, before, after, where, fuel);
    }
    var narrow, wide := st.NarrowOf(bn, an), st.WideOf(bn, an);
    later, there := marked, where;
    var none: nat := 0;
    assert !CompareResolved(st.docs, st.direction, none, marked, bn, an, where).Done?;
    if HasOptions(bn, an) {
      forall fuel: nat
          ensures !CompareOptions(st.docs, st.direction, fuel, marked, Options(narrow), 0, Options(wide),
          where).Done? {
        assert !CompareResolved(st.docs, st.direction, fuel, marked, bn, an, where).Done?;
      }
      var option, candidate := EndlessOption(st, marked, Options(narrow), 0, Options(wide), where);
      b, a := st.NarrowOf(option, candidate), st.WideOf(option, candidate);
      assert OptionPair(st, option, candidate) == (b, a);
    } else {
      var tasks := NodeTasks(st.direction, bn, an, where);
      forall fuel: nat ensures !RunTasks(st.docs, st.direction, fuel, marked, tasks).Done? {
        assert !CompareResolved(st.docs, st.direction, fuel, marked, bn, an, where).Done?;
      }
      var t;
      t, later := EndlessTask(st, marked, tasks);
      b, a, there := t.before, t.after, t.where;
      DescendsWell(st.docs, known, st.direction, bn, an, where, t);
      ComparedIsHeld(st.direction, bn, an, where, t);
    }
  }

  /** Pairs of the documents whose comparison never ends, after at least so many pairs were marked. */
  ghost predicate NeverEndsWith(st: Setting, keys: set<string>, left: nat, before: Schema, after: Schema)
  {
    exists compared, where :: Left(keys, compared) <= left && NeverEnds(st, compared, before, after, where)
  }

  ghost function EndlessPairs(st: Setting, known: Known, keys: set<string>, left: nat): iset<(Schema, Schema)>
  {
    iset pair: (Schema, Schema) | pair.0 in known.before && pair.1 in known.after
        && NeverEndsWith(st, keys, left, pair.0, pair.1)
  }

  /** Behind a comparison that never ends there is a set of pairs that may lead on inside itself for ever. */
  lemma {:induction false} NeverEndingMayGoRound(st: Setting, known: Known, keys: set<string>, chain: nat, left: nat,
      before: Schema, after: Schema)
    returns (pairs: iset<(Schema, Schema)>)
    requires Finite(st, known, keys, chain) && (before, after) in EndlessPairs(st, known, keys, left)
    ensures pairs != iset{} && pairs <= AllPairs(known) && MayGoRound(st, pairs)
    decreases left
  {
    hide Finite, NeverEndsWith, MayGoOn;
    var endless := EndlessPairs(st, known, keys, left);
    if b, a :| (b, a) in endless && TwoReferences(b, a) {
      var b', a' := OneMoreMarked(st, known, keys, chain, left, b, a);
      pairs := NeverEndingMayGoRound(st, known, keys, chain, left - 1, b', a');
    } else {
      pairs := endless;
      forall b, a, bn, an | (b, a) in pairs && ResolvesTo(st.docs.before, b, bn) && ResolvesTo(st.docs.after, a, an)
        ensures MayGoOn(st, bn, an, pairs)
      {
        LeadsInside(st, known, keys, chain, left, b, a, bn, an);
      }
    }
  }

  /** Behind two references that never end is a pair that never ends with one more pair marked. */
  lemma OneMoreMarked(st: Setting, known: Known, keys: set<string>, chain: nat, left: nat, b: Schema, a: Schema)
    returns (b': Schema, a': Schema)
    requires Finite(st, known, keys, chain) && (b, a) in EndlessPairs(st, known, keys, left) && TwoReferences(b, a)
    ensures left > 0 && (b', a') in EndlessPairs(st, known, keys, left - 1)
  {
    var compared, where :| Left(keys, compared) <= left && NeverEnds(st, compared, b, a, where);
    var none: nat := 0;
    assert !CompareNodes(st.docs, st.direction, none + 1, compared, b, a, where).Done?;
    var key := PairKey(b.ref.value, a.ref.value);
    var later, there;
    later, b', a', there := NextNeverEnds(st, known, keys, chain, compared, b, a, where);
    assert keys - compared == (keys - (compared + {key})) + {key};
    FewerLeft(keys, compared + {key}, later);
    assert NeverEndsWith(st, keys, left - 1, b', a');
  }

  lemma LeadsInside(st: Setting, known: Known, keys: set<string>, chain: nat, left: nat, b: Schema, a: Schema,
      bn: Schema, an: Schema)
    requires Finite(st, known, keys, chain) && (b, a) in EndlessPairs(st, known, keys, left)
    requires ResolvesTo(st.docs.before, b, bn) && ResolvesTo(st.docs.after, a, an)
    ensures MayGoOn(st, bn, an, EndlessPairs(st, known, keys, left))
  {
    var compared, where :| Left(keys, compared) <= left && NeverEnds(st, compared, b, a, where);
    var later, b', a', there := NextNeverEnds(st, known, keys, chain, compared, b, a, where);
    FewerLeft(keys, compared, later);
    OneNode(st.docs.before, b, bn, chain);
    OneNode(st.docs.after, a, an, chain);
    assert NeverEndsWith(st, keys, left, b', a');
    assert iset{(b', a')} <= EndlessPairs(st, known, keys, left);
  }

  lemma OneNode(components: Components, s: Schema, node: Schema, chain: nat)
    requires ResolvesTo(components, s, node) && Resolve(components, s, chain).Node?
    ensures Resolve(components, s, chain).schema == node
  {
    var fuel: nat :| Resolve(components, s, fuel) == Node(node);
    MoreFuelResolves(components, s, fuel, fuel + chain);
    MoreFuelResolves(components, s, chain, fuel + chain);
  }

  ghost predicate WithoutAlternatives(known: Known)
  {
    forall s :: s in known.before || s in known.after ==> Alternatives(s).None?
  }

  ghost predicate Ends(st: Setting, before: Schema, after: Schema, where: string)
  {
    exists fuel: nat :: CompareSchemas(st.docs, st.direction, fuel, before, after, where).Done?
  }

  ghost predicate EveryComparisonEnds(st: Setting, known: Known)
  {
    forall before, after, where :: before in known.before && after in known.after ==> Ends(st, before, after, where)
  }

  ghost predicate SomethingGoesRound(st: Setting, known: Known)
  {
    exists pairs :: pairs != iset{} && pairs <= AllPairs(known) && GoesRound(st, pairs)
  }

  /**
   Documents without alternatives: every comparison of their schemas ends, if and only if no set
   of pairs leads back into itself without ever meeting two references at once.
   */
  lemma EndsUnlessItGoesRound(st: Setting, known: Known, keys: set<string>, chain: nat)
    requires Finite(st, known, keys, chain) && WithoutAlternatives(known)
    ensures EveryComparisonEnds(st, known) <==> !SomethingGoesRound(st, known)
  {
    hide Finite, WithoutAlternatives, GoesRound, Ends;
    if pairs :| pairs != iset{} && pairs <= AllPairs(known) && GoesRound(st, pairs) {
      var pair :| pair in pairs;
      RoundHasNoEnd(st, pairs, pair.0, pair.1);
      assert pair in AllPairs(known);
    }
    if before, after, where :| before in known.before && after in known.after && !Ends(st, before, after, where) {
      RoundWithoutAlternatives(st, known, keys, chain, before, after, where);
    }
  }

  lemma RoundHasNoEnd(st: Setting, pairs: iset<(Schema, Schema)>, before: Schema, after: Schema)
    requires GoesRound(st, pairs) && (before, after) in pairs
    ensures !Ends(st, before, after, "")
  {
    forall fuel: nat ensures !CompareSchemas(st.docs, st.direction, fuel, before, after, "").Done? {
      GoingRoundNeverEnds(st, pairs, fuel, {}, before, after, "");
    }
  }

  lemma RoundWithoutAlternatives(st: Setting, known: Known, keys: set<string>, chain: nat, before: Schema,
      after: Schema, where: string)
    requires Finite(st, known, keys, chain) && WithoutAlternatives(known) && before in known.before
        && after in known.after
    requires !Ends(st, before, after, where)
    ensures SomethingGoesRound(st, known)
  {
    forall fuel: nat ensures !CompareNodes(st.docs, st.direction, fuel, {}, before, after, where).Done? {
      assert !CompareSchemas(st.docs, st.direction, fuel, before, after, where).Done?;
    }
    assert NeverEnds(st, {}, before, after, where);
    var pairs := NeverEndingMayGoRound(st, known, keys, chain, Left(keys, {}), before, after);
    forall b, a, bn, an | (b, a) in pairs && ResolvesTo(st.docs.before, b, bn) && ResolvesTo(st.docs.after, a, an)
      ensures GoesOn(st, bn, an, pairs)
    {
      OneNode(st.docs.before, b, bn, chain);
      OneNode(st.docs.after, a, an, chain);
      ResolvesWell(st.docs.before, known.before, b, chain);
      ResolvesWell(st.docs.after, known.after, a, chain);
      assert MayGoOn(st, bn, an, pairs);
    }
  }
}
