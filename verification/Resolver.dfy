/** Target resolution on a fixed page (dingdongditch/backends/target_resolver.py:
    `resolve_target`, `_resolve_container`, the filters, `identity_locator`). */
module Resolver {
  import opened Wrappers

  type Element = nat

  /** A page or a frame: something a locator can be resolved below. */
  type Root = nat

  datatype NameMatch = Exact | Contains | Regex

  datatype Query =
    | TestId(value: string)
    | Placeholder(value: string)
    | Css(value: string)
    | ExactText(value: string)
    | RoleName(role: string, name: string, mode: NameMatch)

  datatype AttributeOperator = Exists | Equals | NotEquals

  datatype Constraint =
    | Within(container: Locator)
    | Attribute(name: string, operator: AttributeOperator, value: Option<string>)
    | Visible(wanted: bool)
    | Enabled(wanted: bool)
    | Exclude(namesExact: seq<string>, namesContaining: seq<string>,
              attribute: Option<string>, attributeValue: Option<string>, css: Option<string>)

  datatype Locator = Locator(query: Query, constraints: seq<Constraint>)

  /** What lies behind an element that is looked at as a frame. */
  datatype FrameLook =
    | Unobservable
    | NotAFrame(tag: string)
    | NoContentFrame
    | ContentFrame(root: Root, identity: string)

  /** A snapshot: every question the resolver can ask has one fixed answer. */
  datatype Page = Page(
    matches: (Root, Query) -> seq<Element>,
    contains: (Element, Element) -> bool,
    attribute: (Element, string) -> Option<string>,
    name: Element -> string,
    visible: Element -> bool,
    enabled: Element -> bool,
    css: (Root, string) -> Option<seq<Element>>,
    frame: Element -> FrameLook)

  datatype Stage = Stage(title: string, before: nat, after: nat)

  datatype FailureKind =
    | ZeroAfterPrimary
    | ZeroAfterConstraints
    | MultipleAfterPrimary
    | MultipleAfterConstraints
    | MissingContainer
    | AmbiguousContainer

  /** The error texts, as far as their wording matters to the resolver itself. */
  datatype Reason =
    | SaysZero
    | SaysMultipleCandidates
    | SaysAmbiguousTarget
    | SaysAmbiguousContainer
  {
    predicate MentionsAmbiguous() {
      SaysAmbiguousTarget? || SaysAmbiguousContainer?
    }
  }

  datatype Problem = Problem(kind: FailureKind, reason: Reason)

  /** `chosen` is the index of the one surviving primary match. */
  datatype Resolution = Resolution(
    chosen: Result<nat, Problem>,
    matchCount: nat,
    finalCount: nat,
    stages: seq<Stage>)

  // ---------------------------------------------------------------------------
  // The filters

  predicate OccursAt(fragment: string, s: string, i: nat) {
    i + |fragment| <= |s| && s[i..i + |fragment|] == fragment
  }

  predicate Infix(fragment: string, s: string) {
    exists i: nat :: i <= |s| && OccursAt(fragment, s, i)
  }

  /** A fragment occurs in a text exactly when the text is something, the fragment, and something. */
  lemma InfixIff(fragment: string, s: string)
    ensures Infix(fragment, s) <==> exists front, back :: s == front + fragment + back
  {
    if Infix(fragment, s) {
      var i: nat :| i <= |s| && OccursAt(fragment, s, i);
      assert s == s[..i] + fragment + s[i + |fragment|..];
    }
    if exists front, back :: s == front + fragment + back {
      var front, back :| s == front + fragment + back;
      assert OccursAt(fragment, s, |front|);
    }
  }

  predicate Excluded(page: Page, root: Root, e: Element, c: Constraint)
    requires c.Exclude?
  {
    || page.name(e) in c.namesExact
    || (exists i :: 0 <= i < |c.namesContaining| && Infix(c.namesContaining[i], page.name(e)))
    || (c.attribute.Some? && c.attributeValue.Some? && page.attribute(e, c.attribute.value) == c.attributeValue)
    || (c.css.Some? && c.css.value != "" && page.css(root, c.css.value).Some? &&
        e in page.css(root, c.css.value).value)
  }

  /** The test of one element against a constraint other than WITHIN. */
  predicate Passes(page: Page, root: Root, e: Element, c: Constraint)
    requires !c.Within?
  {
    match c
    case Attribute(name, operator, value) =>
      var actual := page.attribute(e, name);
      (match operator
       case Exists => actual.Some?
       case Equals => actual == value
       case NotEquals => actual != value)
    case Visible(wanted) => page.visible(e) == wanted
    case Enabled(wanted) => page.enabled(e) == wanted
    case Exclude(_, _, _, _, _) => !Excluded(page, root, e, c)
  }

  /** What one narrowing step asks of a candidate. */
  datatype Test = Satisfies(c: Constraint) | Inside(container: Element)

  predicate Admits(page: Page, root: Root, t: Test, e: Element) {
    match t
    case Satisfies(c) => !c.Within? && Passes(page, root, e, c)
    case Inside(container) => page.contains(container, e)
  }

  /** Candidates are indices into a list of n matches. */
  predicate InRange(candidates: seq<nat>, n: nat) {
    forall k :: 0 <= k < |candidates| ==> candidates[k] < n
  }

  predicate Increasing(candidates: seq<nat>) {
    forall a, b :: 0 <= a < b < |candidates| ==> candidates[a] < candidates[b]
  }

  function Keep(page: Page, root: Root, t: Test, primary: seq<Element>, candidates: seq<nat>): (kept: seq<nat>)
    requires InRange(candidates, |primary|)
    ensures InRange(kept, |primary|) && |kept| <= |candidates|
    ensures forall i: nat :: i in kept <==> i in candidates && i < |primary| && Admits(page, root, t, primary[i])
  {
    if candidates == [] then []
    else
      var last := candidates[|candidates| - 1];
      Keep(page, root, t, primary, candidates[..|candidates| - 1]) +
      if Admits(page, root, t, primary[last]) then [last] else []
  }

  /** The exclusion checks in order: exact names, name fragments, attribute, CSS matches. */
  method CheckExcluded(page: Page, root: Root, e: Element, c: Constraint) returns (excluded: bool)
    requires c.Exclude?
    ensures excluded <==> Excluded(page, root, e, c)
  {
    excluded := false;
    var name := page.name(e);
    for i := 0 to |c.namesExact|
      invariant !excluded && name !in c.namesExact[..i]
    {
      if name == c.namesExact[i] {
        return true;
      }
    }
    assert c.namesExact[..|c.namesExact|] == c.namesExact;
    for i := 0 to |c.namesContaining|
      invariant forall j :: 0 <= j < i ==> !Infix(c.namesContaining[j], name)
    {
      if Infix(c.namesContaining[i], name) {
        return true;
      }
    }
    if c.attribute.Some? && c.attributeValue.Some? {
      if page.attribute(e, c.attribute.value) == c.attributeValue {
        return true;
      }
    }
    if c.css.Some? && c.css.value != "" {
      var found := page.css(root, c.css.value);
      if found.Some? {
        for j := 0 to |found.value|
          invariant e !in found.value[..j]
        {
          if found.value[j] == e {
            return true;
          }
        }
        assert found.value[..|found.value|] == found.value;
      }
    }
    return false;
  }

  method Check(page: Page, root: Root, t: Test, e: Element) returns (admitted: bool)
    ensures admitted <==> Admits(page, root, t, e)
  {
    if t.Satisfies? && t.c.Exclude? {
      var excluded := CheckExcluded(page, root, e, t.c);
      return !excluded;
    }
    return Admits(page, root, t, e);
  }

  /** The filter loop of one narrowing step. */
  method Filter(page: Page, root: Root, t: Test, primary: seq<Element>, candidates: seq<nat>)
    returns (kept: seq<nat>)
    requires InRange(candidates, |primary|)
    ensures kept == Keep(page, root, t, primary, candidates)
  {
    kept := [];
    assert candidates[..0] == [];
    for k := 0 to |candidates|
      invariant InRange(candidates[..k], |primary|)
      invariant kept == Keep(page, root, t, primary, candidates[..k])
    {
      assert candidates[..k + 1][..k] == candidates[..k];
      var admitted := Check(page, root, t, primary[candidates[k]]);
      if admitted {
        kept := kept + [candidates[k]];
      }
    }
    assert candidates[..|candidates|] == candidates;
  }

  // ---------------------------------------------------------------------------
  // Resolution, step by step

  function Indices(n: nat): (r: seq<nat>)
    ensures |r| == n && forall i :: 0 <= i < n ==> r[i] == i
  {
    seq(n, i requires 0 <= i < n => i)
  }

  /** How the failure of a container is reported for the target that needed it. */
  function ContainerProblem(p: Problem, finalCount: nat): Problem {
    if p.reason.MentionsAmbiguous() || finalCount > 1 then
      Problem(AmbiguousContainer, SaysAmbiguousContainer)
    else if p.kind == ZeroAfterPrimary || p.kind == ZeroAfterConstraints then Problem(MissingContainer, p.reason)
    else p
  }

  function Conclude(constrained: bool, candidates: seq<nat>, stages: seq<Stage>): Resolution {
    var n := |candidates|;
    var done := stages + [Stage("cardinality", n, n)];
    if n == 0 then
      Resolution(Failure(Problem(if constrained then ZeroAfterConstraints else ZeroAfterPrimary, SaysZero)), 0, 0, done)
    else if n > 1 then
      Resolution(Failure(if constrained then Problem(MultipleAfterConstraints, SaysMultipleCandidates)
                         else Problem(MultipleAfterPrimary, SaysAmbiguousTarget)), n, n, done)
    else Resolution(Success(candidates[0]), 1, 1, done)
  }

  /** Apply the constraints from the k-th on. */
  function Narrow(page: Page, root: Root, loc: Locator, k: nat, candidates: seq<nat>, stages: seq<Stage>)
    : Resolution
    requires k <= |loc.constraints|
    requires InRange(candidates, |page.matches(root, loc.query)|)
    decreases loc, |loc.constraints| - k
  {
    var primary, before := page.matches(root, loc.query), |candidates|;
    if k == |loc.constraints| then Conclude(loc.constraints != [], candidates, stages)
    else
      match loc.constraints[k]
      case Within(container) =>
        var r := Resolve(page, root, container);
        (match r.chosen
         case Failure(p) =>
           Resolution(Failure(ContainerProblem(p, r.finalCount)), before, before,
                      stages + r.stages + [Stage("constraint", before, before)])
         case Success(i) =>
           var kept := Keep(page, root, Inside(ChosenElement(page, root, container, i)), primary, candidates);
           Narrow(page, root, loc, k + 1, kept, stages + [Stage("constraint", before, |kept|)]))
      case c =>
        var kept := Keep(page, root, Satisfies(c), primary, candidates);
        Narrow(page, root, loc, k + 1, kept, stages + [Stage("constraint", before, |kept|)])
  }

  function Resolve(page: Page, root: Root, loc: Locator): Resolution
    decreases loc, |loc.constraints| + 1
  {
    var n := |page.matches(root, loc.query)|;
    var stages := [Stage("primary", 0, n)];
    if n == 0 && loc.constraints == [] then
      Resolution(Failure(Problem(ZeroAfterPrimary, SaysZero)), 0, 0, stages)
    else Narrow(page, root, loc, 0, Indices(n), stages)
  }

  /** The element that an index into the primary matches stands for. */
  function ChosenElement(page: Page, root: Root, loc: Locator, i: nat): Element {
    var primary := page.matches(root, loc.query);
    if i < |primary| then primary[i] else 0
  }

  /** The body of the resolver's loop: the k-th constraint ends the resolution or narrows the
      candidates. */
  method ApplyConstraint(page: Page, root: Root, loc: Locator, k: nat, candidates: seq<nat>, stages: seq<Stage>)
    returns (ended: Option<Resolution>, kept: seq<nat>, stages': seq<Stage>)
    requires k < |loc.constraints| && InRange(candidates, |page.matches(root, loc.query)|)
    ensures InRange(kept, |page.matches(root, loc.query)|)
    ensures Narrow(page, root, loc, k, candidates, stages) ==
            if ended.Some? then ended.value else Narrow(page, root, loc, k + 1, kept, stages')
    decreases loc, 0
  {
    var primary, before := page.matches(root, loc.query), |candidates|;
    match loc.constraints[k] {
      case Within(container) =>
        var inner := ResolveTarget(page, root, container);
        match inner.chosen {
          case Failure(p) =>
            ended := Some(Resolution(Failure(ContainerProblem(p, inner.finalCount)), before, before,
                                     stages + inner.stages + [Stage("constraint", before, before)]));
            return ended, candidates, stages;
          case Success(i) =>
            kept := Filter(page, root, Inside(ChosenElement(page, root, container, i)), primary, candidates);
        }
      case c =>
        kept := Filter(page, root, Satisfies(c), primary, candidates);
    }
    return None, kept, stages + [Stage("constraint", before, |kept|)];
  }

  /** The resolver's loop over the constraints. */
  method ResolveTarget(page: Page, root: Root, loc: Locator) returns (r: Resolution)
    ensures r == Resolve(page, root, loc)
    decreases loc, 1
  {
    var primary := page.matches(root, loc.query);
    var candidates: seq<nat> := Indices(|primary|);
    var stages := [Stage("primary", 0, |primary|)];
    if |primary| == 0 && loc.constraints == [] {
      return Resolution(Failure(Problem(ZeroAfterPrimary, SaysZero)), 0, 0, stages);
    }
    for k := 0 to |loc.constraints|
      invariant InRange(candidates, |primary|)
      invariant Resolve(page, root, loc) == Narrow(page, root, loc, k, candidates, stages)
    {
      var ended;
      ended, candidates, stages := ApplyConstraint(page, root, loc, k, candidates, stages);
      if ended.Some? {
        return ended.value;
      }
    }
    r := Conclude(loc.constraints != [], candidates, stages);
  }

  // ---------------------------------------------------------------------------
  // What resolution means

  /** The element satisfies the constraint; for WITHIN, the container is designated by its
      own locator and contains the element. */
  ghost predicate Meets(page: Page, root: Root, e: Element, c: Constraint)
    decreases c
  {
    match c
    case Within(container) =>
      exists k: nat :: Designates(page, root, container, k) &&
                  page.contains(page.matches(root, container.query)[k], e)
    case Attribute(name, Exists, _) => page.attribute(e, name).Some?
    case Attribute(name, Equals, value) => page.attribute(e, name) == value
    case Attribute(name, NotEquals, value) => page.attribute(e, name) != value
    case Visible(wanted) => page.visible(e) == wanted
    case Enabled(wanted) => page.enabled(e) == wanted
    case Exclude(exact, fragments, attribute, value, css) =>
      && (forall i :: 0 <= i < |exact| ==> page.name(e) != exact[i])
      && (forall i :: 0 <= i < |fragments| ==> !Infix(fragments[i], page.name(e)))
      && (attribute.Some? && value.Some? ==> page.attribute(e, attribute.value) != Some(value.value))
      && (css.Some? && css.value != "" && page.css(root, css.value).Some? ==> e !in page.css(root, css.value).value)
  }

  /** The test of the filter is what the constraint asks. */
  lemma PassesIffMeets(page: Page, root: Root, e: Element, c: Constraint)
    requires !c.Within?
    ensures Passes(page, root, e, c) <==> Meets(page, root, e, c)
  {
    if c.Exclude? {
      assert page.name(e) in c.namesExact <==> exists i :: 0 <= i < |c.namesExact| && page.name(e) == c.namesExact[i];
    }
  }

  lemma SatisfyingMeansMeeting(page: Page, root: Root, c: Constraint)
    requires !c.Within?
    ensures forall e :: Admits(page, root, Satisfies(c), e) <==> Meets(page, root, e, c)
  {
    forall e ensures Admits(page, root, Satisfies(c), e) <==> Meets(page, root, e, c) {
      PassesIffMeets(page, root, e, c);
    }
  }

  ghost predicate MeetsAll(page: Page, root: Root, e: Element, loc: Locator)
    decreases loc, 0
  {
    forall c :: c in loc.constraints ==> Meets(page, root, e, c)
  }

  /** The i-th primary match, and no other, satisfies every constraint. */
  ghost predicate Designates(page: Page, root: Root, loc: Locator, i: nat)
    ensures Designates(page, root, loc, i) ==> i < |page.matches(root, loc.query)|
    decreases loc, 1
  {
    var primary := page.matches(root, loc.query);
    && i < |primary|
    && MeetsAll(page, root, primary[i], loc)
    && forall j :: 0 <= j < |primary| && j != i ==> !MeetsAll(page, root, primary[j], loc)
  }

  /** Every WITHIN container among the first k constraints is designated. */
  ghost predicate ContainersResolve(page: Page, root: Root, loc: Locator, k: nat)
    requires k <= |loc.constraints|
  {
    forall j :: 0 <= j < k && loc.constraints[j].Within? ==>
      exists i: nat :: Designates(page, root, loc.constraints[j].container, i)
  }

  /** The candidates are exactly the primary matches that meet the first k constraints. */
  ghost predicate Survivors(page: Page, root: Root, loc: Locator, k: nat, candidates: seq<nat>)
    requires k <= |loc.constraints|
  {
    var primary := page.matches(root, loc.query);
    && Increasing(candidates) && InRange(candidates, |primary|)
    && (forall i: nat :: i < |primary| ==>
          (i in candidates <==> forall j :: 0 <= j < k ==> Meets(page, root, primary[i], loc.constraints[j])))
  }

  lemma {:induction false} KeepIncreasing(page: Page, root: Root, t: Test, primary: seq<Element>, candidates: seq<nat>)
    requires InRange(candidates, |primary|)
    requires Increasing(candidates)
    ensures Increasing(Keep(page, root, t, primary, candidates))
  {
    if candidates != [] {
      var shorter, last := candidates[..|candidates| - 1], candidates[|candidates| - 1];
      KeepIncreasing(page, root, t, primary, shorter);
      var kept := Keep(page, root, t, primary, shorter);
      forall a | 0 <= a < |kept| ensures kept[a] < last {
        assert kept[a] in kept && kept[a] in shorter;
      }
    }
  }

  /** A filter that asks what the k-th constraint asks carries the survivors one step on. */
  lemma SurvivorsStep(page: Page, root: Root, loc: Locator, k: nat, candidates: seq<nat>, t: Test)
    requires k < |loc.constraints| && Survivors(page, root, loc, k, candidates)
    requires forall e :: Admits(page, root, t, e) <==> Meets(page, root, e, loc.constraints[k])
    ensures Survivors(page, root, loc, k + 1, Keep(page, root, t, page.matches(root, loc.query), candidates))
  {
    KeepIncreasing(page, root, t, page.matches(root, loc.query), candidates);
  }

  lemma DesignationIsUnique(page: Page, root: Root, loc: Locator, i: nat, j: nat)
    requires Designates(page, root, loc, i) && Designates(page, root, loc, j)
    ensures i == j
  {
  }

  /** Lying inside the designated container is what WITHIN asks. */
  lemma InsideMeansWithin(page: Page, root: Root, container: Locator, i: nat)
    requires Designates(page, root, container, i)
    ensures forall x :: Admits(page, root, Inside(ChosenElement(page, root, container, i)), x)
                   <==> Meets(page, root, x, Within(container))
  {
    forall x | Meets(page, root, x, Within(container))
      ensures Admits(page, root, Inside(ChosenElement(page, root, container, i)), x)
    {
      var m: nat :| Designates(page, root, container, m) &&
                    page.contains(page.matches(root, container.query)[m], x);
      DesignationIsUnique(page, root, container, i, m);
    }
  }

  /** What a resolution must report about the primary matches of a locator. */
  ghost predicate Faithful(page: Page, root: Root, loc: Locator, r: Resolution) {
    var primary := page.matches(root, loc.query);
    var n := |loc.constraints|;
    match r.chosen
    case Success(i) => ContainersResolve(page, root, loc, n) && Designates(page, root, loc, i)
    case Failure(p) =>
      match p.kind
      case ZeroAfterPrimary => primary == [] && loc.constraints == []
      case ZeroAfterConstraints =>
        && loc.constraints != [] && ContainersResolve(page, root, loc, n)
        && forall i :: 0 <= i < |primary| ==> !MeetsAll(page, root, primary[i], loc)
      case MultipleAfterPrimary => r.finalCount > 1 && |primary| > 1 && loc.constraints == []
      case MultipleAfterConstraints =>
        && r.finalCount > 1 && loc.constraints != [] && ContainersResolve(page, root, loc, n)
        && exists i, j :: 0 <= i < j < |primary| && MeetsAll(page, root, primary[i], loc) &&
                          MeetsAll(page, root, primary[j], loc)
      case _ => !ContainersResolve(page, root, loc, n)
  }

  lemma ConcludeIsFaithful(page: Page, root: Root, loc: Locator, candidates: seq<nat>, stages: seq<Stage>)
    requires Survivors(page, root, loc, |loc.constraints|, candidates)
    requires ContainersResolve(page, root, loc, |loc.constraints|)
    requires loc.constraints == [] ==> candidates == Indices(|page.matches(root, loc.query)|)
    ensures Faithful(page, root, loc, Conclude(loc.constraints != [], candidates, stages))
  {
    var primary := page.matches(root, loc.query);
    forall i | 0 <= i < |primary| ensures i in candidates <==> MeetsAll(page, root, primary[i], loc) {
      if i in candidates {
        forall c | c in loc.constraints ensures Meets(page, root, primary[i], c) {
          var j :| 0 <= j < |loc.constraints| && loc.constraints[j] == c;
        }
      }
    }
    if |candidates| > 1 {
      assert candidates[0] in candidates && candidates[1] in candidates;
    } else if |candidates| == 1 {
      assert candidates[0] in candidates;
    }
  }

  lemma ContainersResolveStep(page: Page, root: Root, loc: Locator, k: nat)
    requires k < |loc.constraints| && ContainersResolve(page, root, loc, k)
    requires loc.constraints[k].Within? ==> exists i: nat :: Designates(page, root, loc.constraints[k].container, i)
    ensures ContainersResolve(page, root, loc, k + 1)
  {
  }

  /** When a container has no designated element, reporting its failure is faithful. */
  lemma ContainerFailureIsFaithful(page: Page, root: Root, loc: Locator, k: nat, r: Resolution, mine: Resolution)
    requires k < |loc.constraints| && loc.constraints[k].Within?
    requires Faithful(page, root, loc.constraints[k].container, r) && r.chosen.Failure?
    requires mine.chosen == Failure(ContainerProblem(r.chosen.error, r.finalCount))
    ensures Faithful(page, root, loc, mine)
  {
    NoDesignationWhenFaithfulFailure(page, root, loc.constraints[k].container, r);
    assert !ContainersResolve(page, root, loc, |loc.constraints|);
  }

  lemma {:induction false} NarrowIsFaithful(page: Page, root: Root, loc: Locator, k: nat,
                                            candidates: seq<nat>, stages: seq<Stage>)
    requires k <= |loc.constraints|
    requires Survivors(page, root, loc, k, candidates) && ContainersResolve(page, root, loc, k)
    requires k == 0 ==> candidates == Indices(|page.matches(root, loc.query)|)
    ensures Faithful(page, root, loc, Narrow(page, root, loc, k, candidates, stages))
    decreases loc, |loc.constraints| - k
  {
    if k == |loc.constraints| {
      ConcludeIsFaithful(page, root, loc, candidates, stages);
    } else {
      var primary, before, c := page.matches(root, loc.query), |candidates|, loc.constraints[k];
      if !c.Within? {
        SatisfyingMeansMeeting(page, root, c);
        SurvivorsStep(page, root, loc, k, candidates, Satisfies(c));
        ContainersResolveStep(page, root, loc, k);
        var kept := Keep(page, root, Satisfies(c), primary, candidates);
        NarrowIsFaithful(page, root, loc, k + 1, kept, stages + [Stage("constraint", before, |kept|)]);
      } else {
        ResolveIsFaithful(page, root, c.container);
        var r := Resolve(page, root, c.container);
        if r.chosen.Failure? {
          ContainerFailureIsFaithful(page, root, loc, k, r, Narrow(page, root, loc, k, candidates, stages));
        } else {
          var i := r.chosen.value;
          var e := ChosenElement(page, root, c.container, i);
          assert Designates(page, root, c.container, i);
          InsideMeansWithin(page, root, c.container, i);
          SurvivorsStep(page, root, loc, k, candidates, Inside(e));
          ContainersResolveStep(page, root, loc, k);
          var kept := Keep(page, root, Inside(e), primary, candidates);
          NarrowIsFaithful(page, root, loc, k + 1, kept, stages + [Stage("constraint", before, |kept|)]);
        }
      }
    }
  }

  lemma UnconstrainedAmbiguity(page: Page, root: Root, loc: Locator, i: nat)
    ensures loc.constraints == [] && |page.matches(root, loc.query)| > 1 ==> !Designates(page, root, loc, i)
  {
    var primary := page.matches(root, loc.query);
    if loc.constraints == [] && |primary| > 1 {
      var other := if i == 0 then 1 else 0;
      assert MeetsAll(page, root, primary[other], loc);
    }
  }

  /** A faithful failure report means that no match is designated. */
  lemma NoDesignationWhenFaithfulFailure(page: Page, root: Root, loc: Locator, r: Resolution)
    requires Faithful(page, root, loc, r) && r.chosen.Failure?
    ensures forall i: nat :: !Designates(page, root, loc, i)
  {
    forall i: nat ensures !Designates(page, root, loc, i) {
      UnconstrainedAmbiguity(page, root, loc, i);
      if Designates(page, root, loc, i) {
        DesignatedContainersResolve(page, root, loc, i);
      }
    }
  }

  lemma DesignatedContainersResolve(page: Page, root: Root, loc: Locator, i: nat)
    requires Designates(page, root, loc, i)
    ensures ContainersResolve(page, root, loc, |loc.constraints|)
  {
    var e := page.matches(root, loc.query)[i];
    forall j | 0 <= j < |loc.constraints| && loc.constraints[j].Within?
      ensures exists k: nat :: Designates(page, root, loc.constraints[j].container, k)
    {
      assert Meets(page, root, e, loc.constraints[j]);
    }
  }

  /** Success names the one element that satisfies everything, and each failure kind
      says truthfully what is wrong. */
  lemma {:induction false} ResolveIsFaithful(page: Page, root: Root, loc: Locator)
    ensures Faithful(page, root, loc, Resolve(page, root, loc))
    decreases loc, |loc.constraints| + 1
  {
    var n := |page.matches(root, loc.query)|;
    if !(n == 0 && loc.constraints == []) {
      forall i: nat | i < n ensures i in Indices(n) {
        assert Indices(n)[i] == i;
      }
      NarrowIsFaithful(page, root, loc, 0, Indices(n), [Stage("primary", 0, n)]);
    }
  }

  /** Resolution succeeds exactly when the locator designates an element, and returns it. */
  lemma ResolvesIffDesignates(page: Page, root: Root, loc: Locator)
    ensures Resolve(page, root, loc).chosen.Success? <==> exists i: nat :: Designates(page, root, loc, i)
    ensures forall i: nat :: Designates(page, root, loc, i) <==> Resolve(page, root, loc).chosen == Success(i)
  {
    ResolveIsFaithful(page, root, loc);
    var r := Resolve(page, root, loc);
    if r.chosen.Failure? {
      NoDesignationWhenFaithfulFailure(page, root, loc, r);
    } else {
      assert Designates(page, root, loc, r.chosen.value);
      forall i: nat | Designates(page, root, loc, i) ensures i == r.chosen.value {
        DesignationIsUnique(page, root, loc, i, r.chosen.value);
      }
    }
  }

  // ---------------------------------------------------------------------------
  // Order does not matter, at any depth

  /** A locator in which constraints, here and inside every container, have no order. */
  datatype Unordered = Unordered(query: Query, demands: set<Demand>)

  datatype Demand = InsideOf(container: Unordered) | Plainly(c: Constraint)

  ghost function WithoutOrder(loc: Locator): Unordered {
    Unordered(loc.query, set i | 0 <= i < |loc.constraints| :: DemandOf(loc.constraints[i]))
  }

  ghost function DemandOf(c: Constraint): Demand {
    if c.Within? then InsideOf(WithoutOrder(c.container)) else Plainly(c)
  }

  lemma {:induction false} SameDemandsAskTheSame(page: Page, root: Root, c: Constraint, d: Constraint)
    requires DemandOf(c) == DemandOf(d)
    ensures forall e :: Meets(page, root, e, c) <==> Meets(page, root, e, d)
    decreases c
  {
    if c.Within? {
      SameLocatorsDesignateTheSame(page, root, c.container, d.container);
    }
  }

  lemma CounterpartExists(a: Locator, b: Locator, c: Constraint)
    requires WithoutOrder(a) == WithoutOrder(b) && c in a.constraints
    ensures exists d :: d in b.constraints && DemandOf(d) == DemandOf(c)
  {
    var i :| 0 <= i < |a.constraints| && a.constraints[i] == c;
    assert DemandOf(c) in WithoutOrder(a).demands;
    var j :| 0 <= j < |b.constraints| && DemandOf(b.constraints[j]) == DemandOf(c);
    assert b.constraints[j] in b.constraints;
  }

  lemma {:induction false} SameLocatorsAskTheSame(page: Page, root: Root, e: Element, a: Locator, b: Locator)
    requires WithoutOrder(a) == WithoutOrder(b) && MeetsAll(page, root, e, b)
    ensures MeetsAll(page, root, e, a)
    decreases a, 0
  {
    forall c | c in a.constraints ensures Meets(page, root, e, c) {
      CounterpartExists(a, b, c);
      var d :| d in b.constraints && DemandOf(d) == DemandOf(c);
      SameDemandsAskTheSame(page, root, c, d);
    }
  }

  lemma {:induction false} SameLocatorsDesignateTheSame(page: Page, root: Root, a: Locator, b: Locator)
    requires WithoutOrder(a) == WithoutOrder(b)
    ensures forall i: nat :: Designates(page, root, a, i) <==> Designates(page, root, b, i)
    decreases a, 1
  {
    forall e ensures MeetsAll(page, root, e, a) <==> MeetsAll(page, root, e, b) {
      if MeetsAll(page, root, e, b) {
        SameLocatorsAskTheSame(page, root, e, a, b);
      }
      if MeetsAll(page, root, e, a) {
        forall d | d in b.constraints ensures Meets(page, root, e, d) {
          CounterpartExists(b, a, d);
          var c :| c in a.constraints && DemandOf(c) == DemandOf(d);
          SameDemandsAskTheSame(page, root, c, d);
        }
      }
    }
  }

  /** Reordering or repeating the constraints, of the locator and of the containers inside it,
      changes neither success nor the element. */
  lemma ConstraintOrderDoesNotMatter(page: Page, root: Root, a: Locator, b: Locator)
    requires WithoutOrder(a) == WithoutOrder(b)
    ensures Resolve(page, root, a).chosen.Success? <==> Resolve(page, root, b).chosen.Success?
    ensures Resolve(page, root, a).chosen.Success? ==>
              Resolve(page, root, a).chosen == Resolve(page, root, b).chosen
  {
    ResolvesIffDesignates(page, root, a);
    ResolvesIffDesignates(page, root, b);
    SameLocatorsDesignateTheSame(page, root, a, b);
  }

  // ---------------------------------------------------------------------------
  // How container failures are labelled

  ghost predicate IsDesignated(page: Page, root: Root, loc: Locator) {
    exists i: nat :: Designates(page, root, loc, i)
  }

  /** The k-th constraint is the first WITHIN whose container designates nothing. */
  ghost predicate Blocks(page: Page, root: Root, loc: Locator, k: nat) {
    && k < |loc.constraints| && loc.constraints[k].Within?
    && ContainersResolve(page, root, loc, k)
    && !IsDesignated(page, root, loc.constraints[k].container)
  }

  ghost predicate MeetsFirst(page: Page, root: Root, e: Element, loc: Locator, k: nat)
    requires k <= |loc.constraints|
  {
    forall j :: 0 <= j < k ==> Meets(page, root, e, loc.constraints[j])
  }

  /** At least two primary matches meet the first k constraints. */
  ghost predicate Crowded(page: Page, root: Root, loc: Locator, k: nat)
    requires k <= |loc.constraints|
  {
    var primary := page.matches(root, loc.query);
    exists i, j :: 0 <= i < j < |primary| && MeetsFirst(page, root, primary[i], loc, k) &&
                   MeetsFirst(page, root, primary[j], loc, k)
  }

  ghost predicate NothingMeetsAll(page: Page, root: Root, loc: Locator) {
    var primary := page.matches(root, loc.query);
    forall i :: 0 <= i < |primary| ==> !MeetsAll(page, root, primary[i], loc)
  }

  ghost predicate SeveralMeetAll(page: Page, root: Root, loc: Locator) {
    var primary := page.matches(root, loc.query);
    exists i, j :: 0 <= i < j < |primary| && MeetsAll(page, root, primary[i], loc) && MeetsAll(page, root, primary[j], loc)
  }

  /** A container that designates nothing is called missing: its own containers resolve and
      nothing satisfies it, or its first unresolved container is called missing and was
      reached with at most one candidate left. */
  ghost predicate CalledMissing(page: Page, root: Root, loc: Locator)
    decreases loc
  {
    if ContainersResolve(page, root, loc, |loc.constraints|) then NothingMeetsAll(page, root, loc)
    else
      exists k: nat :: Blocks(page, root, loc, k) && !Crowded(page, root, loc, k) &&
                       CalledMissing(page, root, loc.constraints[k].container)
  }

  lemma OneConstraintBlocks(page: Page, root: Root, loc: Locator, j: nat, k: nat)
    requires Blocks(page, root, loc, j) && Blocks(page, root, loc, k)
    ensures j == k
  {
    if j < k {
      assert IsDesignated(page, root, loc.constraints[j].container);
    } else if k < j {
      assert IsDesignated(page, root, loc.constraints[k].container);
    }
  }

  /** The kind under which a failed resolution of a container is reported. */
  function ContainerKind(r: Resolution): FailureKind
    requires r.chosen.Failure?
  {
    ContainerProblem(r.chosen.error, r.finalCount).kind
  }

  /** What a failed resolution says about containers: the locator's own, when one of them is
      what failed, and the locator itself, should it be a container. */
  ghost predicate LabelsContainers(page: Page, root: Root, loc: Locator, r: Resolution) {
    r.chosen.Failure? ==>
      var kind := r.chosen.error.kind;
      && (ContainerKind(r) == MissingContainer <==> CalledMissing(page, root, loc))
      && (ContainerKind(r) == AmbiguousContainer <==> !CalledMissing(page, root, loc))
      && (kind == MissingContainer <==>
            exists k: nat :: Blocks(page, root, loc, k) && CalledMissing(page, root, loc.constraints[k].container))
      && (kind == AmbiguousContainer <==>
            exists k: nat :: Blocks(page, root, loc, k) && !CalledMissing(page, root, loc.constraints[k].container))
  }

  lemma ResolvedContainersDoNotBlock(page: Page, root: Root, loc: Locator, k: nat)
    requires ContainersResolve(page, root, loc, |loc.constraints|)
    ensures !Blocks(page, root, loc, k)
  {
  }

  lemma ConcludeIsLabelled(page: Page, root: Root, loc: Locator, candidates: seq<nat>, stages: seq<Stage>)
    requires Survivors(page, root, loc, |loc.constraints|, candidates)
    requires ContainersResolve(page, root, loc, |loc.constraints|)
    ensures LabelsContainers(page, root, loc, Conclude(loc.constraints != [], candidates, stages))
  {
    var primary := page.matches(root, loc.query);
    forall k: nat ensures !Blocks(page, root, loc, k) {
      ResolvedContainersDoNotBlock(page, root, loc, k);
    }
    forall i | 0 <= i < |primary| ensures i in candidates <==> MeetsAll(page, root, primary[i], loc) {
      if i in candidates {
        forall c | c in loc.constraints ensures Meets(page, root, primary[i], c) {
          var j :| 0 <= j < |loc.constraints| && loc.constraints[j] == c;
        }
      }
    }
    if candidates != [] {
      assert candidates[0] in candidates;
    }
  }

  lemma SurvivorsCount(page: Page, root: Root, loc: Locator, k: nat, candidates: seq<nat>)
    requires k <= |loc.constraints| && Survivors(page, root, loc, k, candidates)
    ensures |candidates| > 1 <==> Crowded(page, root, loc, k)
  {
    var primary := page.matches(root, loc.query);
    assert forall i: nat :: i < |primary| ==> (i in candidates <==> MeetsFirst(page, root, primary[i], loc, k));
    if |candidates| > 1 {
      assert candidates[0] in candidates && candidates[1] in candidates;
    }
  }

  /** The failure of the first unresolved container, passed on. */
  lemma BlockedIsLabelled(page: Page, root: Root, loc: Locator, k: nat, candidates: seq<nat>,
                          r: Resolution, mine: Resolution)
    requires Blocks(page, root, loc, k) && Survivors(page, root, loc, k, candidates)
    requires r.chosen.Failure? && LabelsContainers(page, root, loc.constraints[k].container, r)
    requires mine.chosen == Failure(ContainerProblem(r.chosen.error, r.finalCount)) && mine.finalCount == |candidates|
    ensures LabelsContainers(page, root, loc, mine)
  {
    SurvivorsCount(page, root, loc, k, candidates);
    assert !ContainersResolve(page, root, loc, |loc.constraints|) by {
      if ContainersResolve(page, root, loc, |loc.constraints|) {
        ResolvedContainersDoNotBlock(page, root, loc, k);
      }
    }
    forall j: nat | Blocks(page, root, loc, j) ensures j == k {
      OneConstraintBlocks(page, root, loc, j, k);
    }
  }

  lemma {:induction false} NarrowIsLabelled(page: Page, root: Root, loc: Locator, k: nat,
                                            candidates: seq<nat>, stages: seq<Stage>)
    requires k <= |loc.constraints|
    requires Survivors(page, root, loc, k, candidates) && ContainersResolve(page, root, loc, k)
    ensures LabelsContainers(page, root, loc, Narrow(page, root, loc, k, candidates, stages))
    decreases loc, |loc.constraints| - k
  {
    if k == |loc.constraints| {
      ConcludeIsLabelled(page, root, loc, candidates, stages);
    } else {
      var primary, before, c := page.matches(root, loc.query), |candidates|, loc.constraints[k];
      if !c.Within? {
        SatisfyingMeansMeeting(page, root, c);
        SurvivorsStep(page, root, loc, k, candidates, Satisfies(c));
        ContainersResolveStep(page, root, loc, k);
        var kept := Keep(page, root, Satisfies(c), primary, candidates);
        NarrowIsLabelled(page, root, loc, k + 1, kept, stages + [Stage("constraint", before, |kept|)]);
      } else {
        ResolvesIffDesignates(page, root, c.container);
        var r := Resolve(page, root, c.container);
        if r.chosen.Failure? {
          ResolveIsLabelled(page, root, c.container);
          BlockedIsLabelled(page, root, loc, k, candidates, r, Narrow(page, root, loc, k, candidates, stages));
        } else {
          var e := ChosenElement(page, root, c.container, r.chosen.value);
          assert Designates(page, root, c.container, r.chosen.value);
          InsideMeansWithin(page, root, c.container, r.chosen.value);
          SurvivorsStep(page, root, loc, k, candidates, Inside(e));
          ContainersResolveStep(page, root, loc, k);
          var kept := Keep(page, root, Inside(e), primary, candidates);
          NarrowIsLabelled(page, root, loc, k + 1, kept, stages + [Stage("constraint", before, |kept|)]);
        }
      }
    }
  }

  lemma {:induction false} ResolveIsLabelled(page: Page, root: Root, loc: Locator)
    ensures LabelsContainers(page, root, loc, Resolve(page, root, loc))
    decreases loc, |loc.constraints| + 1
  {
    var n := |page.matches(root, loc.query)|;
    if !(n == 0 && loc.constraints == []) {
      forall i: nat | i < n ensures i in Indices(n) {
        assert Indices(n)[i] == i;
      }
      NarrowIsLabelled(page, root, loc, 0, Indices(n), [Stage("primary", 0, n)]);
    }
  }

  /** Every failing container is called missing or ambiguous, missing exactly when
      `CalledMissing` says so. */
  lemma ContainerKindIff(page: Page, root: Root, container: Locator)
    requires !IsDesignated(page, root, container)
    ensures Resolve(page, root, container).chosen.Failure?
    ensures ContainerKind(Resolve(page, root, container)) ==
            if CalledMissing(page, root, container) then MissingContainer else AmbiguousContainer
  {
    ResolvesIffDesignates(page, root, container);
    ResolveIsLabelled(page, root, container);
  }

  /** What the two labels claim about a container. */
  ghost predicate IsTrue(page: Page, root: Root, container: Locator, kind: FailureKind) {
    match kind
    case MissingContainer => NothingMeetsAll(page, root, container)
    case AmbiguousContainer => SeveralMeetAll(page, root, container)
    case _ => false
  }

  lemma UnresolvedContainersSatisfyNothing(page: Page, root: Root, loc: Locator)
    requires !ContainersResolve(page, root, loc, |loc.constraints|)
    ensures NothingMeetsAll(page, root, loc) && !SeveralMeetAll(page, root, loc)
  {
    var j :| 0 <= j < |loc.constraints| && loc.constraints[j].Within? &&
             !exists i: nat :: Designates(page, root, loc.constraints[j].container, i);
    assert loc.constraints[j] in loc.constraints;
    assert forall e :: !Meets(page, root, e, loc.constraints[j]);
  }

  lemma NoneOrSeveral(page: Page, root: Root, loc: Locator)
    requires !IsDesignated(page, root, loc)
    ensures NothingMeetsAll(page, root, loc) || SeveralMeetAll(page, root, loc)
  {
    var primary := page.matches(root, loc.query);
    if !NothingMeetsAll(page, root, loc) {
      var i :| 0 <= i < |primary| && MeetsAll(page, root, primary[i], loc);
      assert !Designates(page, root, loc, i);
      var j :| 0 <= j < |primary| && j != i && MeetsAll(page, root, primary[j], loc);
      assert MeetsAll(page, root, primary[if i < j then i else j], loc) &&
             MeetsAll(page, root, primary[if i < j then j else i], loc);
    }
  }

  /** The label of a failing container is true exactly when its own containers resolve or it is
      called missing; so it is wrong exactly when an inner container is unresolved and either
      several candidates were left there or the inner one is itself called ambiguous. */
  lemma ContainerLabelIsTrueIff(page: Page, root: Root, container: Locator)
    requires !IsDesignated(page, root, container)
    ensures Resolve(page, root, container).chosen.Failure?
    ensures IsTrue(page, root, container, ContainerKind(Resolve(page, root, container))) <==>
            ContainersResolve(page, root, container, |container.constraints|) || CalledMissing(page, root, container)
  {
    ContainerKindIff(page, root, container);
    NoneOrSeveral(page, root, container);
    if !ContainersResolve(page, root, container, |container.constraints|) {
      UnresolvedContainersSatisfyNothing(page, root, container);
    }
  }

  /** A container that two elements match and that needs an inner container nobody matches is
      reported as ambiguous, though nothing satisfies it. */
  lemma NestedContainerIsMislabelled(page: Page, root: Root, inner: Locator, outer: Locator, target: Locator)
    requires inner.constraints == [] && page.matches(root, inner.query) == []
    requires outer.constraints == [Within(inner)] && |page.matches(root, outer.query)| == 2
    requires target.constraints == [Within(outer)]
    ensures var r := Resolve(page, root, target);
            && r.chosen == Failure(Problem(AmbiguousContainer, SaysAmbiguousContainer))
            && forall e :: !MeetsAll(page, root, e, outer)
  {
    assert Resolve(page, root, inner).chosen == Failure(Problem(ZeroAfterPrimary, SaysZero));
    assert Resolve(page, root, outer).chosen == Failure(Problem(MissingContainer, SaysZero));
    assert Resolve(page, root, outer).finalCount == 2;
    forall e ensures !MeetsAll(page, root, e, outer) {
      assert Within(inner) in outer.constraints;
    }
  }

  // ---------------------------------------------------------------------------
  // The trace

  /** Each stage starts from the candidates the previous one left, and constraints only narrow. */
  ghost predicate Chained(stages: seq<Stage>) {
    && (forall k :: 0 < k < |stages| ==> stages[k].before == stages[k - 1].after)
    && (forall k :: 0 < k < |stages| ==> stages[k].after <= stages[k].before)
  }

  lemma ChainedAppend(stages: seq<Stage>, s: Stage)
    requires stages != [] && Chained(stages) && s.before == stages[|stages| - 1].after && s.after <= s.before
    ensures Chained(stages + [s])
  {
  }

  /** The primary matches that meet the first k constraints. */
  ghost function Satisfying(page: Page, root: Root, loc: Locator, k: nat): set<nat>
    requires k <= |loc.constraints|
  {
    set i: nat | i < |page.matches(root, loc.query)| && MeetsFirst(page, root, page.matches(root, loc.query)[i], loc, k)
  }

  ghost function Members(candidates: seq<nat>): set<nat> {
    set i | i in candidates
  }

  lemma MembersAppend(init: seq<nat>, last: nat)
    ensures Members(init + [last]) == Members(init) + {last}
  {
  }

  lemma {:induction false} IncreasingIsASet(candidates: seq<nat>)
    requires Increasing(candidates)
    ensures |Members(candidates)| == |candidates|
  {
    if candidates != [] {
      var init, last := candidates[..|candidates| - 1], candidates[|candidates| - 1];
      IncreasingIsASet(init);
      assert candidates == init + [last];
      MembersAppend(init, last);
      assert forall k :: 0 <= k < |init| ==> init[k] == candidates[k] && init[k] < last;
      assert last !in Members(init);
    }
  }

  lemma SurvivorsAreCounted(page: Page, root: Root, loc: Locator, k: nat, candidates: seq<nat>)
    requires k <= |loc.constraints| && Survivors(page, root, loc, k, candidates)
    ensures |candidates| == |Satisfying(page, root, loc, k)|
  {
    IncreasingIsASet(candidates);
    assert Members(candidates) == Satisfying(page, root, loc, k);
  }

  /** The primary stage and one stage for each of the first k constraints, with the numbers of
      matches that meet the constraints before and after it. */
  ghost function StagesUpTo(page: Page, root: Root, loc: Locator, k: nat): seq<Stage>
    requires k <= |loc.constraints|
  {
    if k == 0 then [Stage("primary", 0, |page.matches(root, loc.query)|)]
    else
      StagesUpTo(page, root, loc, k - 1) +
      [Stage("constraint", |Satisfying(page, root, loc, k - 1)|, |Satisfying(page, root, loc, k)|)]
  }

  /** What a resolution that ran through all constraints reports. */
  ghost predicate ReportsAll(page: Page, root: Root, loc: Locator, r: Resolution) {
    var n := |loc.constraints|;
    var count := |Satisfying(page, root, loc, n)|;
    r.matchCount == count && r.finalCount == count &&
    r.stages == StagesUpTo(page, root, loc, n) + [Stage("cardinality", count, count)]
  }

  /** What a resolution that stopped at an unresolved container reports. */
  ghost predicate ReportsBlock(page: Page, root: Root, loc: Locator, k: nat, r: Resolution)
    requires k < |loc.constraints| && loc.constraints[k].Within?
  {
    var count := |Satisfying(page, root, loc, k)|;
    r.matchCount == count && r.finalCount == count &&
    r.stages == StagesUpTo(page, root, loc, k) + Resolve(page, root, loc.constraints[k].container).stages +
                [Stage("constraint", count, count)]
  }

  ghost predicate Reports(page: Page, root: Root, loc: Locator, r: Resolution) {
    && (ContainersResolve(page, root, loc, |loc.constraints|) ==> ReportsAll(page, root, loc, r))
    && (forall k: nat :: Blocks(page, root, loc, k) ==> ReportsBlock(page, root, loc, k, r))
  }

  lemma BlockedReports(page: Page, root: Root, loc: Locator, k: nat, r: Resolution)
    requires Blocks(page, root, loc, k) && ReportsBlock(page, root, loc, k, r)
    ensures Reports(page, root, loc, r)
  {
    if ContainersResolve(page, root, loc, |loc.constraints|) {
      ResolvedContainersDoNotBlock(page, root, loc, k);
    }
    forall j: nat | Blocks(page, root, loc, j) ensures j == k {
      OneConstraintBlocks(page, root, loc, j, k);
    }
  }

  lemma ResolvedReports(page: Page, root: Root, loc: Locator, candidates: seq<nat>, stages: seq<Stage>)
    requires Survivors(page, root, loc, |loc.constraints|, candidates)
    requires ContainersResolve(page, root, loc, |loc.constraints|)
    requires stages == StagesUpTo(page, root, loc, |loc.constraints|)
    ensures Reports(page, root, loc, Conclude(loc.constraints != [], candidates, stages))
  {
    SurvivorsAreCounted(page, root, loc, |loc.constraints|, candidates);
    forall k: nat ensures !Blocks(page, root, loc, k) {
      ResolvedContainersDoNotBlock(page, root, loc, k);
    }
  }

  lemma {:induction false} NarrowReports(page: Page, root: Root, loc: Locator, k: nat,
                                         candidates: seq<nat>, stages: seq<Stage>)
    requires k <= |loc.constraints|
    requires Survivors(page, root, loc, k, candidates) && ContainersResolve(page, root, loc, k)
    requires stages == StagesUpTo(page, root, loc, k)
    ensures Reports(page, root, loc, Narrow(page, root, loc, k, candidates, stages))
    decreases |loc.constraints| - k
  {
    if k == |loc.constraints| {
      ResolvedReports(page, root, loc, candidates, stages);
    } else {
      var c := loc.constraints[k];
      SurvivorsAreCounted(page, root, loc, k, candidates);
      if !c.Within? {
        SatisfyingMeansMeeting(page, root, c);
        OneMoreReports(page, root, loc, k, candidates, Satisfies(c), stages);
      } else {
        ResolvesIffDesignates(page, root, c.container);
        var r := Resolve(page, root, c.container);
        if r.chosen.Failure? {
          BlockedReports(page, root, loc, k, Narrow(page, root, loc, k, candidates, stages));
        } else {
          assert Designates(page, root, c.container, r.chosen.value);
          InsideMeansWithin(page, root, c.container, r.chosen.value);
          OneMoreReports(page, root, loc, k, candidates, Inside(ChosenElement(page, root, c.container, r.chosen.value)), stages);
        }
      }
    }
  }

  lemma {:induction false} OneMoreReports(page: Page, root: Root, loc: Locator, k: nat,
                                          candidates: seq<nat>, t: Test, stages: seq<Stage>)
    requires k < |loc.constraints|
    requires Survivors(page, root, loc, k, candidates) && ContainersResolve(page, root, loc, k)
    requires stages == StagesUpTo(page, root, loc, k)
    requires forall e :: Admits(page, root, t, e) <==> Meets(page, root, e, loc.constraints[k])
    requires loc.constraints[k].Within? ==> exists i: nat :: Designates(page, root, loc.constraints[k].container, i)
    ensures var kept := Keep(page, root, t, page.matches(root, loc.query), candidates);
            Reports(page, root, loc,
                    Narrow(page, root, loc, k + 1, kept, stages + [Stage("constraint", |candidates|, |kept|)]))
    decreases |loc.constraints| - k, 0
  {
    var kept := Keep(page, root, t, page.matches(root, loc.query), candidates);
    SurvivorsStep(page, root, loc, k, candidates, t);
    ContainersResolveStep(page, root, loc, k);
    SurvivorsAreCounted(page, root, loc, k, candidates);
    SurvivorsAreCounted(page, root, loc, k + 1, kept);
    NarrowReports(page, root, loc, k + 1, kept, stages + [Stage("constraint", |candidates|, |kept|)]);
  }

  /** Counts and trace say how many primary matches met the constraints: one stage per constraint
      up to the end or to the first container that designates nothing, whose own trace follows.
      Only a locator without matches and constraints reports nothing but the primary stage. */
  lemma ResolutionReports(page: Page, root: Root, loc: Locator)
    ensures var r := Resolve(page, root, loc);
            if page.matches(root, loc.query) == [] && loc.constraints == [] then
              r.matchCount == 0 && r.finalCount == 0 && r.stages == [Stage("primary", 0, 0)]
            else Reports(page, root, loc, r)
  {
    var n := |page.matches(root, loc.query)|;
    if !(n == 0 && loc.constraints == []) {
      forall i: nat | i < n ensures i in Indices(n) {
        assert Indices(n)[i] == i;
      }
      NarrowReports(page, root, loc, 0, Indices(n), [Stage("primary", 0, n)]);
    }
  }

  lemma MeetingMoreIsRarer(page: Page, root: Root, loc: Locator, k: nat)
    requires k < |loc.constraints|
    ensures |Satisfying(page, root, loc, k + 1)| <= |Satisfying(page, root, loc, k)|
  {
    var more, fewer := Satisfying(page, root, loc, k), Satisfying(page, root, loc, k + 1);
    assert fewer <= more;
    SmallerSet(fewer, more);
  }

  lemma SmallerSet(a: set<nat>, b: set<nat>)
    requires a <= b
    ensures |a| <= |b|
  {
    assert b == a + (b - a);
  }

  lemma AllMeetNothing(page: Page, root: Root, loc: Locator)
    ensures |Satisfying(page, root, loc, 0)| == |page.matches(root, loc.query)|
  {
    var n := |page.matches(root, loc.query)|;
    forall i: nat | i < n ensures i in Indices(n) {
      assert Indices(n)[i] == i;
    }
    SurvivorsAreCounted(page, root, loc, 0, Indices(n));
  }

  lemma {:induction false} StagesAreChained(page: Page, root: Root, loc: Locator, k: nat)
    requires k <= |loc.constraints|
    ensures var stages := StagesUpTo(page, root, loc, k);
            && |stages| == k + 1 && Chained(stages) && stages[k].after == |Satisfying(page, root, loc, k)|
            && stages[0] == Stage("primary", 0, |page.matches(root, loc.query)|)
  {
    if k == 0 {
      AllMeetNothing(page, root, loc);
    } else {
      StagesAreChained(page, root, loc, k - 1);
      MeetingMoreIsRarer(page, root, loc, k - 1);
      ChainedAppend(StagesUpTo(page, root, loc, k - 1),
                    Stage("constraint", |Satisfying(page, root, loc, k - 1)|, |Satisfying(page, root, loc, k)|));
    }
  }

  /** A successful trace has one stage per constraint between the primary and the cardinality
      stage, each starting where the previous one ended and ending at exactly one. */
  lemma SuccessfulTraceIsChained(page: Page, root: Root, loc: Locator)
    requires Resolve(page, root, loc).chosen.Success?
    ensures var stages := Resolve(page, root, loc).stages;
            && |stages| == |loc.constraints| + 2 && Chained(stages)
            && stages[0] == Stage("primary", 0, |page.matches(root, loc.query)|)
            && stages[|stages| - 1] == Stage("cardinality", 1, 1)
  {
    var r, n := Resolve(page, root, loc), |loc.constraints|;
    ResolvesIffDesignates(page, root, loc);
    DesignatedContainersResolve(page, root, loc, r.chosen.value);
    ResolutionReports(page, root, loc);
    StagesAreChained(page, root, loc, n);
    OneIsDesignated(page, root, loc, r.chosen.value);
    ChainedAppend(StagesUpTo(page, root, loc, n), Stage("cardinality", 1, 1));
  }

  lemma OneIsDesignated(page: Page, root: Root, loc: Locator, i: nat)
    requires Designates(page, root, loc, i)
    ensures |Satisfying(page, root, loc, |loc.constraints|)| == 1
  {
    var primary := page.matches(root, loc.query);
    forall j: nat | j < |primary|
      ensures MeetsFirst(page, root, primary[j], loc, |loc.constraints|) <==> j == i
    {
      if MeetsFirst(page, root, primary[j], loc, |loc.constraints|) {
        forall c | c in loc.constraints ensures Meets(page, root, primary[j], c) {
          var m :| 0 <= m < |loc.constraints| && loc.constraints[m] == c;
        }
        assert MeetsAll(page, root, primary[j], loc);
      }
    }
    assert Satisfying(page, root, loc, |loc.constraints|) == {i};
  }

  // ---------------------------------------------------------------------------
  // Two-phase resolution: identity first, interaction state afterwards

  predicate IsState(c: Constraint) {
    c.Visible? || c.Enabled?
  }

  function WithoutState(constraints: seq<Constraint>): (r: seq<Constraint>)
    ensures forall c :: c in r <==> c in constraints && !c.Visible? && !c.Enabled?
  {
    if constraints == [] then []
    else
      (if IsState(constraints[0]) then [] else [constraints[0]]) + WithoutState(constraints[1..])
  }

  function Identity(loc: Locator): Locator {
    loc.(constraints := WithoutState(loc.constraints))
  }

  /** The element is visible and enabled as the locator demands. */
  ghost predicate InDeclaredState(page: Page, root: Root, e: Element, loc: Locator) {
    forall c :: c in loc.constraints ==>
      (c.Visible? ==> page.visible(e) == c.wanted) && (c.Enabled? ==> page.enabled(e) == c.wanted)
  }

  lemma IdentityAndState(page: Page, root: Root, e: Element, loc: Locator)
    ensures MeetsAll(page, root, e, loc) <==>
            MeetsAll(page, root, e, Identity(loc)) && InDeclaredState(page, root, e, loc)
  {
    if MeetsAll(page, root, e, loc) {
      forall c | c in loc.constraints
        ensures (c.Visible? ==> page.visible(e) == c.wanted) && (c.Enabled? ==> page.enabled(e) == c.wanted)
      {
        assert Meets(page, root, e, c);
      }
    } else {
      var c :| c in loc.constraints && !Meets(page, root, e, c);
      assert IsState(c) || c in Identity(loc).constraints;
    }
  }

  /** When the identity resolves, the full locator resolves exactly when the element found
      is in the declared state, and then to that same element. */
  lemma IdentityThenState(page: Page, root: Root, loc: Locator)
    requires Resolve(page, root, Identity(loc)).chosen.Success?
    ensures var i := Resolve(page, root, Identity(loc)).chosen.value;
            && i < |page.matches(root, loc.query)|
            && (Resolve(page, root, loc).chosen.Success? <==>
                  InDeclaredState(page, root, page.matches(root, loc.query)[i], loc))
            && (Resolve(page, root, loc).chosen.Success? ==> Resolve(page, root, loc).chosen == Success(i))
  {
    var id, primary := Identity(loc), page.matches(root, loc.query);
    ResolvesIffDesignates(page, root, id);
    ResolvesIffDesignates(page, root, loc);
    var i := Resolve(page, root, id).chosen.value;
    assert Designates(page, root, id, i);
    forall j | 0 <= j < |primary|
      ensures MeetsAll(page, root, primary[j], loc) <==> j == i && InDeclaredState(page, root, primary[i], loc)
    {
      IdentityAndState(page, root, primary[j], loc);
    }
    if InDeclaredState(page, root, primary[i], loc) {
      assert Designates(page, root, loc, i);
    }
  }
}
