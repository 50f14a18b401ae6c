/** Accommodations: approved exceptions of one candidate, applied to an exam's policy. */
module Accommodations {
  import opened JsonValues
  import opened Policies

  datatype Detector = Absence | LookingAway | Movement | Obstruction | Objects | MultiplePeople

  const EXEMPTIBLE_DETECTORS: seq<Detector> := [Absence, LookingAway, Movement, Obstruction, Objects, MultiplePeople]

  datatype Kind = ExtraTimeKind | RestBreaksKind | NoLivenessKind | AssistiveKind | ExemptionsKind | SupportPersonKind
                | StaffKind | NoCameraKind

  datatype Spec =
    | ExtraTime(percent: Option<int>, minutes: Option<int>)
    | RestBreaks(maxPauses: Option<int>, maxPauseMinutes: Option<int>)
    | NoLivenessChallenge
    | AssistiveTechnology
    | DetectionExemptions(off: set<Detector>)
    | SupportPerson
    | StaffIdentityVerification(reverifyOnContinue: bool)
    | NoCamera(reverifyOnContinue: bool)

  function KindOf(a: Spec): Kind {
    match a
    case ExtraTime(_, _) => ExtraTimeKind
    case RestBreaks(_, _) => RestBreaksKind
    case NoLivenessChallenge => NoLivenessKind
    case AssistiveTechnology => AssistiveKind
    case DetectionExemptions(_) => ExemptionsKind
    case SupportPerson => SupportPersonKind
    case StaffIdentityVerification(_) => StaffKind
    case NoCamera(_) => NoCameraKind
  }

  /* ---------------------------------------------------------------- one accommodation */

  /** The looser of two limits; None is no limit. */
  function Generous(exam: Option<int>, granted: Option<int>): Option<int> {
    if exam.None? || granted.None? then None
    else Some(if exam.value < granted.value then granted.value else exam.value)
  }

  function Off(ds: Detectors, d: Detector): Detectors {
    match d
    case Absence => ds.(absence := false)
    case LookingAway => ds.(lookingAway := false)
    case Movement => ds.(movement := false)
    case Obstruction => ds.(obstruction := false)
    case Objects => ds.(objects := false)
    case MultiplePeople => ds.(multiplePeople := false)
  }

  function AllOff(ds: Detectors, off: set<Detector>): Detectors {
    ds.(absence := ds.absence && Absence !in off, lookingAway := ds.lookingAway && LookingAway !in off,
        movement := ds.movement && Movement !in off, obstruction := ds.obstruction && Obstruction !in off,
        objects := ds.objects && Objects !in off, multiplePeople := ds.multiplePeople && MultiplePeople !in off)
  }

  function Minutes(m: Option<int>): Option<int> {
    if m.None? then None else Some(m.value * 60)
  }

  function Step(p: Policy, a: Spec): Policy {
    match a
    case RestBreaks(maxPauses, maxPauseMinutes) =>
      p.(pause := Pause(true, false, false, Stop,
                        Generous(if p.pause.allowed then p.pause.maxPauses else Some(0), maxPauses),
                        Generous(if p.pause.allowed then p.pause.maxPauseSec else Some(0), Minutes(maxPauseMinutes))))
    case NoLivenessChallenge => p.(identity := p.identity.(liveness := NoLiveness))
    case AssistiveTechnology =>
      p.(browser := p.browser.(requireFullscreen := false, blockClipboard := false, flagWindowBlur := false,
                               requireSingleDisplay := false))
    case DetectionExemptions(off) => p.(detectors := AllOff(p.detectors, off))
    case SupportPerson => p.(detectors := p.detectors.(multiplePeople := false))
    case StaffIdentityVerification(reverify) =>
      p.(identity := p.identity.(verification := Staff, staffReverify := p.identity.staffReverify || reverify))
    case NoCamera(reverify) =>
      p.(cameraEnabled := false,
         identity := p.identity.(verification := Staff, staffReverify := p.identity.staffReverify || reverify))
    case ExtraTime(_, _) => p
  }

  function Fold(p: Policy, items: seq<Spec>): Policy
    decreases |items|
  {
    if items == [] then p else Step(Fold(p, items[..|items| - 1]), items[|items| - 1])
  }

  function Apply(p: Policy, items: seq<Spec>): Policy {
    if items == [] then p else EnforceModes(Fold(p, items))
  }

  method ApplyAccommodations(policy: Policy, items: seq<Spec>) returns (p: Policy)
    ensures p == Apply(policy, items) && (items == [] ==> p == policy)
  {
    if items == [] { return policy; }
    p := policy;
    for i := 0 to |items|
      invariant p == Fold(policy, items[..i])
    {
      assert items[..i + 1][..i] == items[..i] && items[..i + 1][i] == items[i];
      match items[i] {
        case RestBreaks(maxPauses, maxPauseMinutes) =>
          var examMax := if p.pause.allowed then p.pause.maxPauses else Some(0);
          var examLen := if p.pause.allowed then p.pause.maxPauseSec else Some(0);
          p := p.(pause := p.pause.(allowed := true, requireApproval := false, requireReason := false, timer := Stop,
                                    maxPauses := Generous(examMax, maxPauses),
                                    maxPauseSec := Generous(examLen, Minutes(maxPauseMinutes))));
        case NoLivenessChallenge => p := p.(identity := p.identity.(liveness := NoLiveness));
        case AssistiveTechnology =>
          p := p.(browser := p.browser.(requireFullscreen := false, blockClipboard := false, flagWindowBlur := false,
                                        requireSingleDisplay := false));
        case DetectionExemptions(off) => p := Exempt(p, off);
        case SupportPerson => p := p.(detectors := p.detectors.(multiplePeople := false));
        case StaffIdentityVerification(reverify) =>
          p := p.(identity := p.identity.(
            verification := Staff, staffReverify := p.identity.staffReverify || reverify));
        case NoCamera(reverify) =>
          p := p.(cameraEnabled := false);
          p := p.(identity := p.identity.(
            verification := Staff, staffReverify := p.identity.staffReverify || reverify));
        case ExtraTime(_, _) =>
      }
    }
    assert items[..|items|] == items;
    p := EnforceModesOf(p);
  }

  method Exempt(policy: Policy, off: set<Detector>) returns (p: Policy)
    ensures p == policy.(detectors := AllOff(policy.detectors, off))
  {
    p := policy;
    for k := 0 to |EXEMPTIBLE_DETECTORS|
      invariant p == policy.(detectors := AllOff(policy.detectors, set d | d in EXEMPTIBLE_DETECTORS[..k] && d in off))
    {
      var d := EXEMPTIBLE_DETECTORS[k];
      assert EXEMPTIBLE_DETECTORS[..k + 1] == EXEMPTIBLE_DETECTORS[..k] + [d];
      OneMoreOff(policy.detectors, EXEMPTIBLE_DETECTORS[..k], d, off);
      if d in off { p := p.(detectors := Off(p.detectors, d)); }
    }
    AllExemptible(off);
  }

  lemma OneMoreOff(ds: Detectors, list: seq<Detector>, d: Detector, off: set<Detector>)
    ensures AllOff(ds, set x | x in list + [d] && x in off)
      == if d in off then Off(AllOff(ds, set x | x in list && x in off), d)
        else AllOff(ds, set x | x in list && x in off)
  {
    var before, after := set x | x in list && x in off, set x | x in list + [d] && x in off;
    assert after == if d in off then before + {d} else before;
  }

  /** Every detector is on the list. */
  lemma AllExemptible(off: set<Detector>)
    ensures (set d | d in EXEMPTIBLE_DETECTORS[..|EXEMPTIBLE_DETECTORS|] && d in off) == off
  {
    assert EXEMPTIBLE_DETECTORS[..|EXEMPTIBLE_DETECTORS|] == EXEMPTIBLE_DETECTORS;
    forall d: Detector ensures d in EXEMPTIBLE_DETECTORS {
      match d {
        case Absence => assert EXEMPTIBLE_DETECTORS[0] == d;
        case LookingAway => assert EXEMPTIBLE_DETECTORS[1] == d;
        case Movement => assert EXEMPTIBLE_DETECTORS[2] == d;
        case Obstruction => assert EXEMPTIBLE_DETECTORS[3] == d;
        case Objects => assert EXEMPTIBLE_DETECTORS[4] == d;
        case MultiplePeople => assert EXEMPTIBLE_DETECTORS[5] == d;
      }
    }
  }

  /* ---------------------------------------------------------------- order and repetition */

  lemma StepsCommute(p: Policy, a: Spec, b: Spec)
    ensures Step(Step(p, a), b) == Step(Step(p, b), a)
  {
  }

  lemma StepIsIdempotent(p: Policy, a: Spec)
    ensures Step(Step(p, a), a) == Step(p, a)
  {
  }

  lemma {:induction false} FoldThenStep(p: Policy, items: seq<Spec>, a: Spec)
    ensures Fold(Step(p, a), items) == Step(Fold(p, items), a)
    decreases |items|
  {
    if items != [] {
      var init, last := items[..|items| - 1], items[|items| - 1];
      FoldThenStep(p, init, a);
      StepsCommute(Fold(p, init), a, last);
    }
  }

  lemma {:induction false} RepeatedStep(p: Policy, items: seq<Spec>, a: Spec)
    requires a in items
    ensures Step(Fold(p, items), a) == Fold(p, items)
    decreases |items|
  {
    var init, last := items[..|items| - 1], items[|items| - 1];
    if a == last {
      StepIsIdempotent(Fold(p, init), a);
    } else {
      assert a in init;
      RepeatedStep(p, init, a);
      StepsCommute(Fold(p, init), last, a);
    }
  }

  lemma {:induction false} FoldConcat(p: Policy, a: seq<Spec>, b: seq<Spec>)
    ensures Fold(p, a + b) == Fold(Fold(p, a), b)
    decreases |b|
  {
    if b == [] {
      assert a + b == a;
    } else {
      assert (a + b)[..|a + b| - 1] == a + b[..|b| - 1];
      FoldConcat(p, a, b[..|b| - 1]);
    }
  }

  /** Accommodations already granted add nothing. */
  lemma {:induction false} FoldAbsorbs(p: Policy, a: seq<Spec>, b: seq<Spec>)
    requires forall x :: x in b ==> x in a
    ensures Fold(Fold(p, a), b) == Fold(p, a)
    decreases |b|
  {
    if b != [] {
      FoldAbsorbs(p, a, b[..|b| - 1]);
      assert b[|b| - 1] in b;
      RepeatedStep(p, a, b[|b| - 1]);
    }
  }

  lemma {:induction false} FoldsCommute(p: Policy, a: seq<Spec>, b: seq<Spec>)
    ensures Fold(Fold(p, a), b) == Fold(Fold(p, b), a)
    decreases |b|
  {
    if b != [] {
      var init, last := b[..|b| - 1], b[|b| - 1];
      FoldsCommute(p, a, init);
      FoldThenStep(Fold(p, init), a, last);
    }
  }

  /** Order and repetition do not matter: lists with the same accommodations give the same policy. */
  lemma SameAccommodationsSamePolicy(p: Policy, a: seq<Spec>, b: seq<Spec>)
    requires forall x :: x in a <==> x in b
    ensures Apply(p, a) == Apply(p, b)
  {
    FoldAbsorbs(p, a, b);
    FoldAbsorbs(p, b, a);
    FoldsCommute(p, a, b);
    if a != [] { assert a[0] in b; }
    if b != [] { assert b[0] in a; }
  }

  /* ---------------------------------------------------------------- relaxation */

  /** A limit as the candidate feels it: no pausing is a limit of 0. */
  function EffectiveLimit(p: Pause, limit: Option<int>): Option<int> {
    if p.allowed then limit else Some(0)
  }

  predicate Looser(limit: Option<int>, than: Option<int>) {
    limit.None? || (than.Some? && limit.value >= than.value)
  }

  /** No pause, browser or detection rule of `q` is stricter than in `p`. */
  predicate NotStricter(q: Policy, p: Policy) {
    && (p.pause.allowed ==> q.pause.allowed)
    && (q.pause.requireApproval ==> p.pause.requireApproval || !p.pause.allowed)
    && (q.pause.requireReason ==> p.pause.requireReason || !p.pause.allowed)
    && (q.pause.timer == Continue ==> p.pause.timer == Continue)
    && Looser(EffectiveLimit(q.pause, q.pause.maxPauses), EffectiveLimit(p.pause, p.pause.maxPauses))
    && Looser(EffectiveLimit(q.pause, q.pause.maxPauseSec), EffectiveLimit(p.pause, p.pause.maxPauseSec))
    && (q.browser.requireFullscreen ==> p.browser.requireFullscreen)
    && (q.browser.requireSingleDisplay ==> p.browser.requireSingleDisplay)
    && (q.browser.blockClipboard ==> p.browser.blockClipboard)
    && (q.browser.flagTabHidden ==> p.browser.flagTabHidden)
    && (q.browser.flagWindowBlur ==> p.browser.flagWindowBlur)
    && (q.detectors.absence ==> p.detectors.absence) && (q.detectors.multiplePeople ==> p.detectors.multiplePeople)
    && (q.detectors.lookingAway ==> p.detectors.lookingAway) && (q.detectors.movement ==> p.detectors.movement)
    && (q.detectors.obstruction ==> p.detectors.obstruction) && (q.detectors.objects ==> p.detectors.objects)
    && (q.detectors.cameraIntegrity ==> p.detectors.cameraIntegrity)
  }

  lemma NotStricterTransitive(r: Policy, q: Policy, p: Policy)
    requires NotStricter(r, q) && NotStricter(q, p)
    ensures NotStricter(r, p)
  {
  }

  lemma StepRelaxes(p: Policy, a: Spec)
    ensures NotStricter(Step(p, a), p)
  {
  }

  /* ---------------------------------------------------------------- what rest breaks leave */

  predicate HasBreaks(items: seq<Spec>) {
    exists i :: 0 <= i < |items| && items[i].RestBreaks?
  }

  /** The numbers of pauses that rest-break grants allow. */
  function GrantedPauses(items: seq<Spec>): set<Option<int>> {
    set i | 0 <= i < |items| && items[i].RestBreaks? :: items[i].maxPauses
  }

  /** The lengths they allow, in seconds. */
  function GrantedSeconds(items: seq<Spec>): set<Option<int>> {
    set i | 0 <= i < |items| && items[i].RestBreaks? ::
      if items[i].maxPauseMinutes.None? then None else Some(60 * items[i].maxPauseMinutes.value)
  }

  /** No limit if one of them is none; else the largest of them. */
  predicate IsLoosest(limit: Option<int>, limits: set<Option<int>>) {
    && (limit.None? <==> None in limits)
    && limit in limits
    && forall l :: l in limits && l.Some? && limit.Some? ==> l.value <= limit.value
  }

  lemma LoosestOfTwo(limit: Option<int>, limits: set<Option<int>>, granted: Option<int>)
    requires IsLoosest(limit, limits)
    ensures IsLoosest(Generous(limit, granted), limits + {granted})
  {
  }

  predicate PausesAreLoosest(p: Pause, items: seq<Spec>, q: Pause) {
    IsLoosest(EffectiveLimit(q, q.maxPauses), GrantedPauses(items) + {EffectiveLimit(p, p.maxPauses)})
  }

  predicate LengthIsLoosest(p: Pause, items: seq<Spec>, q: Pause) {
    IsLoosest(EffectiveLimit(q, q.maxPauseSec), GrantedSeconds(items) + {EffectiveLimit(p, p.maxPauseSec)})
  }

  predicate BreaksLeave(p: Pause, items: seq<Spec>, q: Pause) {
    && (if HasBreaks(items) then q.allowed && !q.requireApproval && !q.requireReason && q.timer == Stop else q == p)
    && PausesAreLoosest(p, items, q) && LengthIsLoosest(p, items, q)
  }

  lemma OneMoreGrant(items: seq<Spec>, a: Spec)
    ensures HasBreaks(items + [a]) <==> HasBreaks(items) || a.RestBreaks?
    ensures GrantedPauses(items + [a]) == GrantedPauses(items) + if a.RestBreaks? then {a.maxPauses} else {}
    ensures GrantedSeconds(items + [a]) == GrantedSeconds(items) +
      if a.RestBreaks? then {if a.maxPauseMinutes.None? then None else Some(60 * a.maxPauseMinutes.value)} else {}
  {
    var all := items + [a];
    assert all[|items|] == a && forall i :: 0 <= i < |items| ==> all[i] == items[i];
    if a.RestBreaks? {
      assert a.maxPauses in GrantedPauses(all);
      assert (if a.maxPauseMinutes.None? then None else Some(60 * a.maxPauseMinutes.value)) in GrantedSeconds(all);
    }
    forall l | l in GrantedPauses(items) ensures l in GrantedPauses(all) {
      var i :| 0 <= i < |items| && items[i].RestBreaks? && items[i].maxPauses == l;
      assert all[i].maxPauses == l;
    }
    forall l | l in GrantedSeconds(items) ensures l in GrantedSeconds(all) {
      var i :| 0 <= i < |items| && items[i].RestBreaks?
        && (if items[i].maxPauseMinutes.None? then None else Some(60 * items[i].maxPauseMinutes.value)) == l;
      assert all[i] == items[i];
    }
  }

  lemma {:induction false} FoldBreaks(p: Policy, items: seq<Spec>)
    ensures BreaksLeave(p.pause, items, Fold(p, items).pause)
    decreases |items|
  {
    if items == [] {
      assert GrantedPauses(items) == {} && GrantedSeconds(items) == {};
    } else {
      var init, a := items[..|items| - 1], items[|items| - 1];
      assert items == init + [a];
      FoldBreaks(p, init);
      if a.RestBreaks? {
        OneMoreGrant(init, a);
        PausesStep(p.pause, init, Fold(p, init), a);
        LengthStep(p.pause, init, Fold(p, init), a);
      } else {
        OthersLeavePauses(Fold(p, init), a);
        OtherStep(p.pause, init, Fold(p, init).pause, a);
      }
    }
  }

  lemma OthersLeavePauses(p: Policy, a: Spec)
    requires !a.RestBreaks?
    ensures Step(p, a).pause == p.pause
  {
  }

  lemma OtherStep(p: Pause, init: seq<Spec>, q: Pause, a: Spec)
    requires BreaksLeave(p, init, q) && !a.RestBreaks?
    ensures BreaksLeave(p, init + [a], q)
  {
    OneMoreGrant(init, a);
  }

  lemma PausesStep(p: Pause, init: seq<Spec>, mid: Policy, a: Spec)
    requires PausesAreLoosest(p, init, mid.pause) && a.RestBreaks?
    ensures PausesAreLoosest(p, init + [a], Step(mid, a).pause)
  {
    var exam := EffectiveLimit(p, p.maxPauses);
    OneMoreGrant(init, a);
    LoosestOfTwo(EffectiveLimit(mid.pause, mid.pause.maxPauses), GrantedPauses(init) + {exam}, a.maxPauses);
    assert GrantedPauses(init) + {exam} + {a.maxPauses} == GrantedPauses(init + [a]) + {exam};
  }

  lemma LengthStep(p: Pause, init: seq<Spec>, mid: Policy, a: Spec)
    requires LengthIsLoosest(p, init, mid.pause) && a.RestBreaks?
    ensures LengthIsLoosest(p, init + [a], Step(mid, a).pause)
  {
    var exam := EffectiveLimit(p, p.maxPauseSec);
    var granted := if a.maxPauseMinutes.None? then None else Some(60 * a.maxPauseMinutes.value);
    OneMoreGrant(init, a);
    LoosestOfTwo(EffectiveLimit(mid.pause, mid.pause.maxPauseSec), GrantedSeconds(init) + {exam}, granted);
    assert GrantedSeconds(init) + {exam} + {granted} == GrantedSeconds(init + [a]) + {exam};
  }

  /**
   * With rest breaks the candidate may pause, needs no approval and no reason, and the clock stops; each limit is the
   * loosest of the exam's (0 if it forbids pausing) and those granted, a granted minute counting 60 seconds. Without
   * rest breaks the exam's own rules on pauses stay.
   */
  lemma RestBreaksLeave(p: Policy, items: seq<Spec>)
    ensures BreaksLeave(p.pause, items, Apply(p, items).pause)
  {
    FoldBreaks(p, items);
    assert EnforceModes(Fold(p, items)).pause == Fold(p, items).pause;
  }

  /* ---------------------------------------------------------------- a larger list */

  lemma {:induction false} FoldRelaxes(p: Policy, items: seq<Spec>)
    ensures NotStricter(Fold(p, items), p)
    decreases |items|
  {
    if items != [] {
      var before := Fold(p, items[..|items| - 1]);
      FoldRelaxes(p, items[..|items| - 1]);
      StepRelaxes(before, items[|items| - 1]);
      NotStricterTransitive(Fold(p, items), before, p);
    }
  }

  /** The modes at work in a fold only widen when more is granted. */
  lemma ModesStay(p: Policy, items: seq<Spec>)
    ensures !p.cameraEnabled ==> !Fold(p, items).cameraEnabled
    decreases |items|
  {
    if items != [] { ModesStay(p, items[..|items| - 1]); }
  }

  lemma EnforcingKeepsOrder(q: Policy, p: Policy)
    requires NotStricter(q, p) && (!p.cameraEnabled ==> !q.cameraEnabled)
    ensures NotStricter(EnforceModes(q), EnforceModes(p))
  {
  }

  /** Granting more never makes a pause, browser or detection rule stricter. */
  lemma MoreIsNeverStricter(p: Policy, fewer: seq<Spec>, more: seq<Spec>)
    requires forall x :: x in fewer ==> x in more
    ensures NotStricter(Apply(p, more), Apply(p, fewer))
  {
    FoldAbsorbs(p, more, fewer);
    FoldsCommute(p, more, fewer);
    var few := Fold(p, fewer);
    FoldRelaxes(few, more);
    ModesStay(few, more);
    EnforcingKeepsOrder(Fold(few, more), few);
    assert fewer == [] ==> few == p;
    if more != [] && fewer == [] {
      NotStricterTransitive(EnforceModes(Fold(p, more)), Fold(p, more), p);
    }
    if fewer != [] { assert fewer[0] in more; }
  }

  /* ---------------------------------------------------------------- identity demands */

  function Reverifies(a: Spec): bool {
    (a.StaffIdentityVerification? || a.NoCamera?) && a.reverifyOnContinue
  }

  predicate AnyReverifies(items: seq<Spec>) {
    exists i :: 0 <= i < |items| && Reverifies(items[i])
  }

  lemma {:induction false} FoldReverifies(p: Policy, items: seq<Spec>)
    ensures Fold(p, items).identity.staffReverify <==>
      p.identity.staffReverify || AnyReverifies(items)
    decreases |items|
  {
    if items != [] {
      var init := items[..|items| - 1];
      FoldReverifies(p, init);
      SomeReverifies(items);
    }
  }

  lemma SomeReverifies(items: seq<Spec>)
    requires items != []
    ensures AnyReverifies(items) <==> Reverifies(items[|items| - 1]) || AnyReverifies(items[..|items| - 1])
  {
    var init := items[..|items| - 1];
    assert forall i :: 0 <= i < |init| ==> init[i] == items[i];
  }

  /** The one demand an accommodation can add: staff confirm the candidate again exactly when a grant says so. */
  lemma ReverifiesIffGranted(p: Policy, items: seq<Spec>)
    ensures Apply(p, items).identity.staffReverify <==>
      p.identity.staffReverify || AnyReverifies(items)
  {
    FoldReverifies(p, items);
  }

  /* ---------------------------------------------------------------- well-formedness */

  /** Parameters as the grant form accepts them. */
  predicate ValidSpec(a: Spec) {
    a.RestBreaks? ==>
      && (a.maxPauses.Some? ==> 1 <= a.maxPauses.value <= 50)
      && (a.maxPauseMinutes.Some? ==> 1 <= a.maxPauseMinutes.value <= 240)
  }

  predicate Sound(p: Policy) {
    InBounds(p) && p.identity.profile == ProfileOf(SamplingOf(p.identity))
  }

  lemma {:induction false} FoldStaysSound(p: Policy, items: seq<Spec>)
    requires Sound(p) && forall i :: 0 <= i < |items| ==> ValidSpec(items[i])
    ensures Sound(Fold(p, items))
    decreases |items|
  {
    if items != [] {
      assert forall i :: 0 <= i < |items[..|items| - 1]| ==> items[..|items| - 1][i] == items[i];
      FoldStaysSound(p, items[..|items| - 1]);
      assert ValidSpec(items[|items| - 1]);
    }
  }

  /** Applying valid accommodations to a resolved policy gives a resolved policy. */
  lemma AppliedIsResolved(p: Policy, items: seq<Spec>)
    requires Resolved(p) && forall i :: 0 <= i < |items| ==> ValidSpec(items[i])
    ensures Resolved(Apply(p, items)) && Resolve(AsInput(Apply(p, items))) == Some(Apply(p, items))
  {
    FoldStaysSound(p, items);
    ModesAreAClosure(Fold(p, items));
    ResolvedIffFixpoint(Apply(p, items));
  }

  /* ---------------------------------------------------------------- extra time */

  function Or0(v: Option<int>): int {
    if v.None? then 0 else v.value
  }

  /** `Math.round(base · percent / 100)`: halves round up. */
  function Share(base: int, percent: int): int {
    (2 * base * percent + 100) / 200
  }

  function Extra(base: int, a: Spec): int {
    if a.ExtraTime? then Share(base, Or0(a.percent)) + Or0(a.minutes) * 60_000 else 0
  }

  function ExtraTimeOf(base: int, items: seq<Spec>): int
    decreases |items|
  {
    if items == [] then 0 else ExtraTimeOf(base, items[..|items| - 1]) + Extra(base, items[|items| - 1])
  }

  method AccommodationExtraTime(base: int, items: seq<Spec>) returns (extra: int)
    ensures extra == ExtraTimeOf(base, items)
  {
    extra := 0;
    for i := 0 to |items|
      invariant extra == ExtraTimeOf(base, items[..i])
    {
      assert items[..i + 1][..i] == items[..i] && items[..i + 1][i] == items[i];
      if !items[i].ExtraTime? { continue; }
      extra := extra + Share(base, Or0(items[i].percent)) + Or0(items[i].minutes) * 60_000;
    }
    assert items[..|items|] == items;
  }

  /** `extra` is the share rounded to the nearest millisecond, halves up, and 60000 for each minute. */
  predicate IsExtra(base: int, percent: int, minutes: int, extra: int) {
    var share := extra - minutes * 60_000;
    200 * share - 100 <= 2 * (base * percent) < 200 * share + 100
  }

  lemma ShareRounds(base: int, percent: int)
    ensures 200 * Share(base, percent) - 100 <= 2 * (base * percent) < 200 * Share(base, percent) + 100
  {
    var x := 2 * (base * percent);
    assert 2 * base * percent == x;
  }

  /** What one accommodation adds: nothing unless it grants extra time. */
  lemma ExtraTimeOfOne(base: int, a: Spec)
    ensures a.ExtraTime? ==> IsExtra(base, if a.percent.Some? then a.percent.value else 0,
                                     if a.minutes.Some? then a.minutes.value else 0, ExtraTimeOf(base, [a]))
    ensures !a.ExtraTime? ==> ExtraTimeOf(base, [a]) == 0
    ensures ExtraTimeOf(base, []) == 0
  {
    assert [a][..0] == [];
    assert ExtraTimeOf(base, [a]) == ExtraTimeOf(base, []) + Extra(base, a);
    if a.ExtraTime? { ShareRounds(base, Or0(a.percent)); }
  }

  /** Several grants add up. */
  lemma {:induction false} ExtraTimeAdds(base: int, a: seq<Spec>, b: seq<Spec>)
    ensures ExtraTimeOf(base, a + b) == ExtraTimeOf(base, a) + ExtraTimeOf(base, b)
    decreases |b|
  {
    if b == [] {
      assert a + b == a;
    } else {
      assert (a + b)[..|a + b| - 1] == a + b[..|b| - 1];
      ExtraTimeAdds(base, a, b[..|b| - 1]);
    }
  }

  /** In any order. */
  lemma {:induction false} ExtraTimeIgnoresOrder(base: int, a: seq<Spec>, b: seq<Spec>)
    requires multiset(a) == multiset(b)
    ensures ExtraTimeOf(base, a) == ExtraTimeOf(base, b)
    decreases |a|
  {
    if a == [] {
      NoneLeft(b);
    } else {
      var k := SameWithout(a, b);
      ExtraTimeIgnoresOrder(base, a[..|a| - 1], b[..k] + b[k + 1..]);
      ExtraTimeWithoutOne(base, b, k);
    }
  }

  lemma NoneLeft(b: seq<Spec>)
    requires multiset(b) == multiset{}
    ensures b == []
  {
    assert |multiset(b)| == |b|;
  }

  lemma SameWithout(a: seq<Spec>, b: seq<Spec>) returns (k: nat)
    requires a != [] && multiset(a) == multiset(b)
    ensures k < |b| && b[k] == a[|a| - 1] && multiset(a[..|a| - 1]) == multiset(b[..k] + b[k + 1..])
  {
    var last := a[|a| - 1];
    assert last in multiset(a);
    k :| 0 <= k < |b| && b[k] == last;
    WithoutOne(b, k);
    WithoutOne(a, |a| - 1);
    assert a[..|a| - 1] + a[|a|..] == a[..|a| - 1];
  }

  lemma WithoutOne(b: seq<Spec>, k: nat)
    requires k < |b|
    ensures multiset(b[..k] + b[k + 1..]) == multiset(b) - multiset{b[k]}
  {
    assert b == b[..k] + [b[k]] + b[k + 1..];
  }

  lemma ExtraTimeWithoutOne(base: int, b: seq<Spec>, k: nat)
    requires k < |b|
    ensures ExtraTimeOf(base, b) == ExtraTimeOf(base, b[..k] + b[k + 1..]) + Extra(base, b[k])
  {
    assert b == b[..k] + [b[k]] + b[k + 1..];
    ExtraTimeAdds(base, b[..k], b[k + 1..]);
    ExtraTimeAdds(base, b[..k], [b[k]]);
    ExtraTimeAdds(base, b[..k] + [b[k]], b[k + 1..]);
    assert [b[k]][..0] == [];
  }
}
