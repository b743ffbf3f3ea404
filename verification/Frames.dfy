/** Frame resolution along a declared path (dingdongditch/backends/target_resolver.py:
    `resolve_frame` and `resolve_frame_path`). */
module Frames {
  import opened Wrappers
  import opened Resolver
  import Decimal

  datatype FrameKind = MissingFrame | AmbiguousFrame | DetachedFrame | NotFrame

  /** One hop: the frame reached, or why it was not. */
  datatype HopResult = HopResult(frame: Result<Root, FrameKind>, matchCount: nat, identity: string, stages: seq<Stage>)

  datatype Hop = Hop(number: nat, locator: Locator, identity: string)

  datatype PathFailure = PathFailure(kind: FrameKind, hop: nat)

  datatype PathResult = PathResult(
    frame: Result<Root, PathFailure>,
    hops: seq<Hop>,
    stages: seq<Stage>)

  function FrameFailure(kind: FailureKind): FrameKind {
    match kind
    case ZeroAfterPrimary => MissingFrame
    case ZeroAfterConstraints => MissingFrame
    case MissingContainer => MissingFrame
    case MultipleAfterPrimary => AmbiguousFrame
    case MultipleAfterConstraints => AmbiguousFrame
    case AmbiguousContainer => AmbiguousFrame
  }

  function FrameTitle(title: string): string {
    if title == "primary" || title == "cardinality" || title == "constraint" then "frame_" + title else title
  }

  function Retitled(stages: seq<Stage>): (r: seq<Stage>)
    ensures |r| == |stages|
    ensures forall i :: 0 <= i < |r| ==> r[i] == stages[i].(title := FrameTitle(stages[i].title))
  {
    seq(|stages|, i requires 0 <= i < |stages| => stages[i].(title := FrameTitle(stages[i].title)))
  }

  function ResolveFrame(page: Page, root: Root, loc: Locator): HopResult {
    var r := Resolve(page, root, loc);
    var stages := Retitled(r.stages);
    match r.chosen
    case Failure(p) => HopResult(Failure(FrameFailure(p.kind)), r.matchCount, "", stages)
    case Success(i) =>
      match page.frame(ChosenElement(page, root, loc, i))
      case Unobservable => HopResult(Failure(DetachedFrame), 1, "", stages)
      case NotAFrame(_) => HopResult(Failure(NotFrame), 1, "", stages)
      case NoContentFrame => HopResult(Failure(DetachedFrame), 1, "", stages)
      case ContentFrame(inner, identity) =>
        HopResult(Success(inner), 1, identity, stages + [Stage("frame_attached", 1, 1)])
  }

  method ResolveHop(page: Page, root: Root, loc: Locator) returns (r: HopResult)
    ensures r == ResolveFrame(page, root, loc)
  {
    var element := ResolveTarget(page, root, loc);
    var stages := Retitled(element.stages);
    if element.chosen.Failure? {
      return HopResult(Failure(FrameFailure(element.chosen.error.kind)), element.matchCount, "", stages);
    }
    match page.frame(ChosenElement(page, root, loc, element.chosen.value)) {
      case Unobservable => return HopResult(Failure(DetachedFrame), 1, "", stages);
      case NotAFrame(_) => return HopResult(Failure(NotFrame), 1, "", stages);
      case NoContentFrame => return HopResult(Failure(DetachedFrame), 1, "", stages);
      case ContentFrame(inner, identity) =>
        return HopResult(Success(inner), 1, identity, stages + [Stage("frame_attached", 1, 1)]);
    }
  }

  /** The frame is reported missing exactly when nothing satisfies its locator while every
      container resolves, or when the first unresolved container is called missing; it is
      reported ambiguous when several elements satisfy the locator or that container is not
      called missing; it is not a frame, or detached, when the one element that satisfies the
      locator is no frame element, or cannot be observed or has no content. */
  lemma FrameFailureMeaning(page: Page, root: Root, loc: Locator)
    requires ResolveFrame(page, root, loc).frame.Failure?
    ensures var kind, resolved := ResolveFrame(page, root, loc).frame.error, ContainersResolve(page, root, loc, |loc.constraints|);
            && (kind == MissingFrame <==>
                  || (resolved && NothingMeetsAll(page, root, loc))
                  || exists k: nat :: Blocks(page, root, loc, k) && CalledMissing(page, root, loc.constraints[k].container))
            && (kind == AmbiguousFrame <==>
                  || (resolved && SeveralMeetAll(page, root, loc))
                  || exists k: nat :: Blocks(page, root, loc, k) && !CalledMissing(page, root, loc.constraints[k].container))
            && (kind == NotFrame <==>
                  exists i: nat :: Designates(page, root, loc, i) && page.frame(page.matches(root, loc.query)[i]).NotAFrame?)
            && (kind == DetachedFrame <==>
                  exists i: nat :: Designates(page, root, loc, i) &&
                    (page.frame(page.matches(root, loc.query)[i]).Unobservable? ||
                     page.frame(page.matches(root, loc.query)[i]).NoContentFrame?))
  {
    var r := Resolve(page, root, loc);
    ResolveIsFaithful(page, root, loc);
    ResolveIsLabelled(page, root, loc);
    match r.chosen {
      case Success(i) =>
        DesignatedFails(page, root, loc, i);
        forall j: nat | Designates(page, root, loc, j) ensures j == i {
          DesignationIsUnique(page, root, loc, i, j);
        }
      case Failure(p) =>
        NoDesignationWhenFaithfulFailure(page, root, loc, r);
        KindsWithoutContainers(page, root, loc, r);
    }
  }

  /** When something is designated, no container blocks and exactly one element satisfies all. */
  lemma DesignatedFails(page: Page, root: Root, loc: Locator, i: nat)
    requires Designates(page, root, loc, i)
    ensures !NothingMeetsAll(page, root, loc) && !SeveralMeetAll(page, root, loc)
    ensures forall k: nat :: !Blocks(page, root, loc, k)
  {
    DesignatedContainersResolve(page, root, loc, i);
    forall k: nat ensures !Blocks(page, root, loc, k) {
      ResolvedContainersDoNotBlock(page, root, loc, k);
    }
  }

  /** A failure that is not about a container says how many elements satisfy the locator. */
  lemma KindsWithoutContainers(page: Page, root: Root, loc: Locator, r: Resolution)
    requires Faithful(page, root, loc, r) && r.chosen.Failure?
    ensures var kind, resolved := r.chosen.error.kind, ContainersResolve(page, root, loc, |loc.constraints|);
            && (kind == ZeroAfterPrimary || kind == ZeroAfterConstraints <==> resolved && NothingMeetsAll(page, root, loc))
            && (kind == MultipleAfterPrimary || kind == MultipleAfterConstraints <==>
                  resolved && SeveralMeetAll(page, root, loc))
  {
    var primary := page.matches(root, loc.query);
    if r.chosen.error.kind == MultipleAfterPrimary {
      assert MeetsAll(page, root, primary[0], loc) && MeetsAll(page, root, primary[1], loc);
    }
  }

  /** What a hop records: the stages of resolving its element under frame titles, with a last one
      for an attached frame, and the number of matches found, which is one for every failure after
      the element is found. */
  lemma HopRecords(page: Page, root: Root, loc: Locator)
    ensures var r, element := ResolveFrame(page, root, loc), Resolve(page, root, loc);
            var n := |element.stages|;
            && n <= |r.stages| <= n + 1
            && (|r.stages| == n + 1 <==> r.frame.Success?)
            && (r.frame.Success? ==> r.stages[n] == Stage("frame_attached", 1, 1))
            && r.matchCount == (if element.chosen.Success? then 1 else element.matchCount)
            && forall i :: 0 <= i < n ==>
                 r.stages[i] == Stage("frame_" + element.stages[i].title, element.stages[i].before, element.stages[i].after)
  {
    ResolveTitles(page, root, loc);
  }

  /** The locator designates a frame element whose content is this frame, of this identity. */
  ghost predicate Leads(page: Page, root: Root, loc: Locator, inner: Root, identity: string) {
    exists i: nat :: Designates(page, root, loc, i) &&
                     page.frame(page.matches(root, loc.query)[i]) == ContentFrame(inner, identity)
  }

  /** A hop reaches a frame exactly when its locator leads there. */
  lemma HopReachesIff(page: Page, root: Root, loc: Locator, inner: Root, identity: string)
    ensures var r := ResolveFrame(page, root, loc);
            r.frame == Success(inner) && r.identity == identity <==> Leads(page, root, loc, inner, identity)
    ensures ResolveFrame(page, root, loc).frame.Success? ==> ResolveFrame(page, root, loc).matchCount == 1
  {
    ResolvesIffDesignates(page, root, loc);
  }

  function HopTitle(hop: nat, title: string): string {
    "frame_hop_" + (Decimal.Print(hop) + (['_'] + title))
  }

  function Labelled(hop: nat, stages: seq<Stage>): (r: seq<Stage>)
    ensures |r| == |stages|
    ensures forall i :: 0 <= i < |r| ==> r[i] == stages[i].(title := HopTitle(hop, stages[i].title))
  {
    seq(|stages|, i requires 0 <= i < |stages| => stages[i].(title := HopTitle(hop, stages[i].title)))
  }

  /** Put what earlier hops recorded in front. */
  function Behind(hops: seq<Hop>, stages: seq<Stage>, rest: PathResult): PathResult {
    PathResult(rest.frame, hops + rest.hops, stages + rest.stages)
  }

  /** Walk a path whose first hop has the given number. */
  function Walk(page: Page, root: Root, path: seq<Locator>, number: nat): PathResult
    decreases |path|
  {
    if path == [] then PathResult(Success(root), [], [])
    else
      var r := ResolveFrame(page, root, path[0]);
      var stages := Labelled(number, r.stages);
      match r.frame
      case Failure(kind) => PathResult(Failure(PathFailure(kind, number)), [], stages)
      case Success(inner) =>
        Behind([Hop(number, path[0], r.identity)], stages, Walk(page, inner, path[1..], number + 1))
  }

  /** The loop over the declared hops; an empty path is refused. */
  method ResolveFramePath(page: Page, root: Root, path: seq<Locator>) returns (r: Option<PathResult>)
    ensures r == if path == [] then None else Some(Walk(page, root, path, 0))
  {
    if path == [] {
      return None;
    }
    var current := root;
    var stages: seq<Stage> := [];
    var hops: seq<Hop> := [];
    for hop := 0 to |path|
      invariant Walk(page, root, path, 0) == Behind(hops, stages, Walk(page, current, path[hop..], hop))
    {
      assert path[hop..][0] == path[hop] && path[hop..][1..] == path[hop + 1..];
      var result := ResolveHop(page, current, path[hop]);
      BehindTwice(hops, [Hop(hop, path[hop], result.identity)], stages, Labelled(hop, result.stages),
                  Walk(page, if result.frame.Success? then result.frame.value else current, path[hop + 1..], hop + 1));
      stages := stages + Labelled(hop, result.stages);
      if result.frame.Failure? {
        assert hops + [] == hops;
        return Some(PathResult(Failure(PathFailure(result.frame.error, hop)), hops, stages));
      }
      hops := hops + [Hop(hop, path[hop], result.identity)];
      current := result.frame.value;
    }
    assert hops + [] == hops && stages + [] == stages;
    return Some(PathResult(Success(current), hops, stages));
  }

  lemma BehindTwice(h1: seq<Hop>, h2: seq<Hop>, s1: seq<Stage>, s2: seq<Stage>, rest: PathResult)
    ensures Behind(h1, s1, Behind(h2, s2, rest)) == Behind(h1 + h2, s1 + s2, rest)
  {
    assert h1 + (h2 + rest.hops) == (h1 + h2) + rest.hops;
    assert s1 + (s2 + rest.stages) == (s1 + s2) + rest.stages;
  }

  // ---------------------------------------------------------------------------
  // Paths compose

  /** Walking p + q is walking p and then, from the frame it reaches, walking q with the hop
      numbers continued: same frame or same failure, and hops and trace concatenated. */
  lemma {:induction false} PathsCompose(page: Page, root: Root, p: seq<Locator>, q: seq<Locator>, number: nat)
    ensures var first := Walk(page, root, p, number);
            Walk(page, root, p + q, number) ==
            match first.frame
            case Failure(_) => first
            case Success(inner) => Behind(first.hops, first.stages, Walk(page, inner, q, number + |p|))
    decreases |p|
  {
    if p == [] {
      assert p + q == q;
      var rest := Walk(page, root, q, number);
      assert [] + rest.hops == rest.hops && [] + rest.stages == rest.stages;
    } else {
      assert (p + q)[0] == p[0] && (p + q)[1..] == p[1..] + q;
      var r := ResolveFrame(page, root, p[0]);
      if r.frame.Success? {
        PathsCompose(page, r.frame.value, p[1..], q, number + 1);
        var first := Walk(page, r.frame.value, p[1..], number + 1);
        if first.frame.Success? {
          BehindTwice([Hop(number, p[0], r.identity)], first.hops, Labelled(number, r.stages), first.stages,
                      Walk(page, first.frame.value, q, number + |p|));
        }
      }
    }
  }

  /** Starting the numbering elsewhere changes only the numbers. */
  lemma {:induction false} NumberingIsOnlyNumbering(page: Page, root: Root, path: seq<Locator>, number: nat)
    ensures var here, there := Walk(page, root, path, 0), Walk(page, root, path, number);
            && |here.hops| == |there.hops| && |here.stages| == |there.stages|
            && here.frame.Success? == there.frame.Success?
            && (here.frame.Success? ==> here.frame == there.frame)
            && (here.frame.Failure? ==>
                  there.frame == Failure(PathFailure(here.frame.error.kind, here.frame.error.hop + number)))
    decreases |path|
  {
    if path != [] {
      var r := ResolveFrame(page, root, path[0]);
      if r.frame.Success? {
        NumberingIsOnlyNumbering(page, r.frame.value, path[1..], 1);
        NumberingIsOnlyNumbering(page, r.frame.value, path[1..], number + 1);
      }
    }
  }

  /** The outcome of a walk whose last part, taken on its own, gives `second`, after `hops` hops. */
  ghost predicate EndsAs(whole: PathResult, second: PathResult, hops: nat) {
    && whole.frame.Success? == second.frame.Success?
    && (second.frame.Success? ==> whole.frame == second.frame)
    && (second.frame.Failure? ==>
          whole.frame == Failure(PathFailure(second.frame.error.kind, hops + second.frame.error.hop)))
  }

  lemma ContinuedWalkEndsAs(page: Page, inner: Root, q: seq<Locator>, hops: nat)
    ensures EndsAs(Walk(page, inner, q, hops), Walk(page, inner, q, 0), hops)
    ensures |Walk(page, inner, q, hops).hops| == |Walk(page, inner, q, 0).hops|
  {
    NumberingIsOnlyNumbering(page, inner, q, hops);
  }

  /** A path p + q succeeds exactly when p reaches a frame from which q succeeds, with q's
      final frame; a failure inside q is reported |p| hops later. */
  lemma PathSucceedsIff(page: Page, root: Root, p: seq<Locator>, q: seq<Locator>)
    ensures var whole, first := Walk(page, root, p + q, 0), Walk(page, root, p, 0);
            && (first.frame.Failure? ==> whole == first)
            && (first.frame.Success? ==>
                  var second := Walk(page, first.frame.value, q, 0);
                  EndsAs(whole, second, |p|) && |whole.hops| == |first.hops| + |second.hops|)
  {
    PathsCompose(page, root, p, q, 0);
    var first := Walk(page, root, p, 0);
    if first.frame.Success? {
      ContinuedWalkEndsAs(page, first.frame.value, q, |p|);
    }
  }

  // ---------------------------------------------------------------------------
  // Failure bookkeeping

  /** Hops are recorded in order, each with its number and its locator: all of them on
      success, exactly those before the reported hop on failure. */
  lemma {:induction false} HopsAreRecorded(page: Page, root: Root, path: seq<Locator>, number: nat)
    ensures var r := Walk(page, root, path, number);
            && |r.hops| <= |path|
            && (r.frame.Success? ==> |r.hops| == |path|)
            && (r.frame.Failure? ==> |r.hops| < |path| && r.frame.error.hop == number + |r.hops|)
            && forall k :: 0 <= k < |r.hops| ==> r.hops[k].number == number + k && r.hops[k].locator == path[k]
    decreases |path|
  {
    if path != [] {
      var r := ResolveFrame(page, root, path[0]);
      if r.frame.Success? {
        HopsAreRecorded(page, r.frame.value, path[1..], number + 1);
        var whole, rest := Walk(page, root, path, number), Walk(page, r.frame.value, path[1..], number + 1);
        assert forall k :: 0 < k < |whole.hops| ==> whole.hops[k] == rest.hops[k - 1] && path[k] == path[1..][k - 1];
      }
    }
  }

  /** On failure the reported hop is the first that does not lead to a frame: the path before
      it reaches a frame, and from that frame this hop fails in the reported way. */
  lemma FirstFailingHop(page: Page, root: Root, path: seq<Locator>, h: nat)
    requires Walk(page, root, path, 0).frame.Failure? && h == Walk(page, root, path, 0).frame.error.hop
    ensures h == |Walk(page, root, path, 0).hops| < |path|
    ensures Walk(page, root, path[..h], 0).frame.Success?
    ensures ResolveFrame(page, Walk(page, root, path[..h], 0).frame.value, path[h]).frame
         == Failure(Walk(page, root, path, 0).frame.error.kind)
  {
    HopsAreRecorded(page, root, path, 0);
    var before, after := path[..h], path[h..];
    assert path == before + after;
    PathSucceedsIff(page, root, before, after);
    var first := Walk(page, root, before, 0);
    HopsAreRecorded(page, root, before, 0);
    var second := Walk(page, first.frame.value, after, 0);
    HopsAreRecorded(page, first.frame.value, after, 0);
    assert second.frame.error.hop == 0;
  }

  // ---------------------------------------------------------------------------
  // What a path means

  /** The frames one after the other, each led to by the next locator from the one before. */
  ghost predicate IsChain(page: Page, roots: seq<Root>, path: seq<Locator>, identities: seq<string>) {
    && |roots| == |path| + 1 && |identities| == |path|
    && forall k :: 0 <= k < |path| ==> Leads(page, roots[k], path[k], roots[k + 1], identities[k])
  }

  /** The path leads from one frame to another, by way of frames of these identities. */
  ghost predicate PathLeads(page: Page, root: Root, path: seq<Locator>, final: Root, identities: seq<string>) {
    exists roots: seq<Root> ::
      IsChain(page, roots, path, identities) && roots[0] == root && roots[|path|] == final
  }

  function Identities(hops: seq<Hop>): (r: seq<string>)
    ensures |r| == |hops| && forall k :: 0 <= k < |r| ==> r[k] == hops[k].identity
  {
    seq(|hops|, k requires 0 <= k < |hops| => hops[k].identity)
  }

  lemma ChainTail(page: Page, roots: seq<Root>, path: seq<Locator>, identities: seq<string>)
    requires path != [] && IsChain(page, roots, path, identities)
    ensures IsChain(page, roots[1..], path[1..], identities[1..])
    ensures Leads(page, roots[0], path[0], roots[1], identities[0])
  {
    forall k | 0 <= k < |path[1..]| ensures Leads(page, roots[1..][k], path[1..][k], roots[1..][k + 1], identities[1..][k]) {
      assert Leads(page, roots[k + 1], path[k + 1], roots[k + 2], identities[k + 1]);
    }
  }

  lemma ChainCons(page: Page, root: Root, roots: seq<Root>, path: seq<Locator>, identity: string, identities: seq<string>)
    requires path != [] && IsChain(page, roots, path[1..], identities)
    requires Leads(page, root, path[0], roots[0], identity)
    ensures IsChain(page, [root] + roots, path, [identity] + identities)
  {
    var all, ids := [root] + roots, [identity] + identities;
    forall k | 0 <= k < |path| ensures Leads(page, all[k], path[k], all[k + 1], ids[k]) {
      if k > 0 {
        assert Leads(page, roots[k - 1], path[1..][k - 1], roots[k], identities[k - 1]);
      }
    }
  }

  /** What succeeds follows a chain of frames, with the recorded identities. */
  lemma {:induction false} WalkFollowsAChain(page: Page, root: Root, path: seq<Locator>, number: nat) returns (roots: seq<Root>)
    requires Walk(page, root, path, number).frame.Success?
    ensures var r := Walk(page, root, path, number);
            && IsChain(page, roots, path, Identities(r.hops)) && roots[0] == root && roots[|path|] == r.frame.value
    decreases |path|
  {
    if path == [] {
      roots := [root];
    } else {
      var hop := ResolveFrame(page, root, path[0]);
      HopReachesIff(page, root, path[0], hop.frame.value, hop.identity);
      var rest := WalkFollowsAChain(page, hop.frame.value, path[1..], number + 1);
      var tail := Walk(page, hop.frame.value, path[1..], number + 1);
      ChainCons(page, root, rest, path, hop.identity, Identities(tail.hops));
      roots := [root] + rest;
      assert Identities(Walk(page, root, path, number).hops) == [hop.identity] + Identities(tail.hops);
    }
  }

  /** And every chain of frames is followed. */
  lemma {:induction false} ChainIsWalked(page: Page, roots: seq<Root>, path: seq<Locator>, identities: seq<string>, number: nat)
    requires IsChain(page, roots, path, identities)
    ensures Walk(page, roots[0], path, number).frame == Success(roots[|path|])
    ensures Identities(Walk(page, roots[0], path, number).hops) == identities
    decreases |path|
  {
    if path != [] {
      ChainTail(page, roots, path, identities);
      HopReachesIff(page, roots[0], path[0], roots[1], identities[0]);
      ChainIsWalked(page, roots[1..], path[1..], identities[1..], number + 1);
      assert identities == [identities[0]] + identities[1..];
    }
  }

  /** A path resolves to a frame, recording these identities, exactly when it leads there by way
      of frames of these identities. */
  lemma PathResolvesIff(page: Page, root: Root, path: seq<Locator>, final: Root, identities: seq<string>)
    ensures var r := Walk(page, root, path, 0);
            r.frame == Success(final) && Identities(r.hops) == identities <==> PathLeads(page, root, path, final, identities)
  {
    var r := Walk(page, root, path, 0);
    if r.frame.Success? {
      var roots := WalkFollowsAChain(page, root, path, 0);
    }
    if PathLeads(page, root, path, final, identities) {
      var roots: seq<Root> :| IsChain(page, roots, path, identities) && roots[0] == root && roots[|path|] == final;
      ChainIsWalked(page, roots, path, identities, 0);
    }
  }

  // ---------------------------------------------------------------------------
  // Trace labels

  predicate IsPlainTitle(t: string) {
    t == "primary" || t == "constraint" || t == "cardinality"
  }

  predicate IsFrameTitle(t: string) {
    t == "frame_primary" || t == "frame_constraint" || t == "frame_cardinality" || t == "frame_attached"
  }

  ghost predicate AllPlain(stages: seq<Stage>) {
    forall i :: 0 <= i < |stages| ==> IsPlainTitle(stages[i].title)
  }

  lemma {:induction false} NarrowTitles(page: Page, root: Root, loc: Locator, k: nat,
                                        candidates: seq<nat>, stages: seq<Stage>)
    requires k <= |loc.constraints| && InRange(candidates, |page.matches(root, loc.query)|)
    requires AllPlain(stages)
    ensures AllPlain(Narrow(page, root, loc, k, candidates, stages).stages)
    decreases loc, |loc.constraints| - k
  {
    if k < |loc.constraints| {
      var primary, before, c := page.matches(root, loc.query), |candidates|, loc.constraints[k];
      if !c.Within? {
        var kept := Keep(page, root, Satisfies(c), primary, candidates);
        NarrowTitles(page, root, loc, k + 1, kept, stages + [Stage("constraint", before, |kept|)]);
      } else {
        ResolveTitles(page, root, c.container);
        var r := Resolve(page, root, c.container);
        if r.chosen.Success? {
          var e := ChosenElement(page, root, c.container, r.chosen.value);
          var kept := Keep(page, root, Inside(e), primary, candidates);
          NarrowTitles(page, root, loc, k + 1, kept, stages + [Stage("constraint", before, |kept|)]);
        }
      }
    }
  }

  lemma {:induction false} ResolveTitles(page: Page, root: Root, loc: Locator)
    ensures AllPlain(Resolve(page, root, loc).stages)
    decreases loc, |loc.constraints| + 1
  {
    var n := |page.matches(root, loc.query)|;
    if !(n == 0 && loc.constraints == []) {
      NarrowTitles(page, root, loc, 0, Indices(n), [Stage("primary", 0, n)]);
    }
  }

  lemma FrameTitleOfPlain(t: string)
    requires IsPlainTitle(t)
    ensures IsFrameTitle(FrameTitle(t))
  {
  }

  lemma HopTitles(page: Page, root: Root, loc: Locator)
    ensures forall i :: 0 <= i < |ResolveFrame(page, root, loc).stages| ==>
              IsFrameTitle(ResolveFrame(page, root, loc).stages[i].title)
  {
    ResolveTitles(page, root, loc);
    var stages := Resolve(page, root, loc).stages;
    forall i | 0 <= i < |stages| ensures IsFrameTitle(Retitled(stages)[i].title) {
      FrameTitleOfPlain(stages[i].title);
    }
  }

  /** The stages that the h-th hop of a path records, before labelling: those of resolving it
      from the frame the earlier hops reach, and none when they reach no frame. */
  function OwnStages(page: Page, root: Root, path: seq<Locator>, h: nat): seq<Stage>
    requires h < |path|
  {
    match Walk(page, root, path[..h], 0).frame
    case Failure(_) => []
    case Success(inner) => ResolveFrame(page, inner, path[h]).stages
  }

  /** The own stages of the first n hops one after the other, each labelled with its hop. */
  function LabelledHops(page: Page, root: Root, path: seq<Locator>, n: nat): seq<Stage>
    requires n <= |path|
  {
    if n == 0 then []
    else LabelledHops(page, root, path, n - 1) + Labelled(n - 1, OwnStages(page, root, path, n - 1))
  }

  /** Walking one hop further. */
  lemma OneHopMore(page: Page, root: Root, path: seq<Locator>, n: nat)
    requires n < |path|
    ensures Walk(page, root, path[..n + 1], 0).stages ==
            Walk(page, root, path[..n], 0).stages + Labelled(n, OwnStages(page, root, path, n))
  {
    assert path[..n + 1] == path[..n] + [path[n]];
    PathsCompose(page, root, path[..n], [path[n]], 0);
    var first := Walk(page, root, path[..n], 0);
    if first.frame.Success? {
      var own := Labelled(n, OwnStages(page, root, path, n));
      assert Walk(page, first.frame.value, [path[n]], n).stages == own by {
        assert own + [] == own;
      }
    } else {
      assert Labelled(n, []) == [];
      assert first.stages + [] == first.stages;
    }
  }

  lemma {:induction false} TraceOfPrefix(page: Page, root: Root, path: seq<Locator>, n: nat)
    requires n <= |path|
    ensures Walk(page, root, path[..n], 0).stages == LabelledHops(page, root, path, n)
  {
    if n > 0 {
      TraceOfPrefix(page, root, path, n - 1);
      OneHopMore(page, root, path, n - 1);
    }
  }

  /** The trace of a path is, hop after hop, what each hop itself records, every stage labelled
      with its own hop; before that its title carries no hop label. */
  lemma EveryStageIsLabelledOnce(page: Page, root: Root, path: seq<Locator>)
    ensures Walk(page, root, path, 0).stages == LabelledHops(page, root, path, |path|)
    ensures forall h, i :: 0 <= h < |path| && 0 <= i < |OwnStages(page, root, path, h)| ==>
              IsFrameTitle(OwnStages(page, root, path, h)[i].title)
  {
    TraceOfPrefix(page, root, path, |path|);
    assert path[..|path|] == path;
    forall h | 0 <= h < |path|
      ensures forall i :: 0 <= i < |OwnStages(page, root, path, h)| ==>
                IsFrameTitle(OwnStages(page, root, path, h)[i].title)
    {
      var before := Walk(page, root, path[..h], 0).frame;
      if before.Success? {
        HopTitles(page, before.value, path[h]);
      }
    }
  }

  lemma CancelPrefix(p: string, a: string, b: string)
    requires p + a == p + b
    ensures a == b
  {
    assert (p + a)[|p|..] == a && (p + b)[|p|..] == b;
  }

  lemma SplitAtSeparator(a: string, b: string, s: string, t: string)
    requires Decimal.AllDigits(a) && Decimal.AllDigits(b) && a + (['_'] + s) == b + (['_'] + t)
    ensures a == b && s == t
  {
    var x := a + (['_'] + s);
    assert x[|a|] == '_' && x[|b|] == '_';
    assert x[..|a|] == a && x[..|b|] == b;
    CancelPrefix(a, ['_'] + s, ['_'] + t);
    CancelPrefix(['_'], s, t);
  }

  /** The label tells which hop a stage belongs to, and no unlabelled title looks labelled. */
  lemma LabelsDetermineHops(a: nat, b: nat, s: string, t: string)
    requires HopTitle(a, s) == HopTitle(b, t)
    ensures a == b && s == t
    ensures !IsFrameTitle(HopTitle(a, s))
  {
    assert HopTitle(a, s)[..10] == "frame_hop_" && HopTitle(a, s)[6] == 'h';
    CancelPrefix("frame_hop_", Decimal.Print(a) + (['_'] + s), Decimal.Print(b) + (['_'] + t));
    SplitAtSeparator(Decimal.Print(a), Decimal.Print(b), s, t);
    Decimal.PrintIsInjective(a, b);
  }
}
