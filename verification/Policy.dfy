/** An exam's proctoring policy: its defaults, its bounds and the rules of its modes. */
module Policies {
  import opened JsonValues
  import opened PolicyTree

  datatype Verification = Automatic | Staff
  datatype Liveness = Active | NoLiveness
  datatype IdPhoto = NoPhoto | Advisory | Required
  datatype Profile = Maximum | Balanced | Custom
  datatype OnMismatch = HoldForReview | FlagOnly
  datatype Timer = Stop | Continue

  datatype Identity = Identity(
    verification: Verification, staffReverify: bool, liveness: Liveness, livenessSteps: int, idPhoto: IdPhoto,
    periodic: int, startupInterval: int, startupWindow: int, burst: int, routineBurst: int,
    profile: Profile, onMismatch: OnMismatch, maxAttempts: int)

  datatype Pause = Pause(allowed: bool, requireReason: bool, requireApproval: bool, timer: Timer,
                         maxPauses: Option<int>, maxPauseSec: Option<int>)

  datatype Browser = Browser(requireFullscreen: bool, requireSingleDisplay: bool, blockClipboard: bool,
                             flagTabHidden: bool, flagWindowBlur: bool, windowBlurMinSec: real)

  datatype Detectors = Detectors(absence: bool, multiplePeople: bool, lookingAway: bool, movement: bool,
                                 obstruction: bool, objects: bool, cameraIntegrity: bool)

  datatype Evidence = Evidence(screenshots: bool, maxScreenshots: int, periodicSec: real, keepMatching: bool)

  /**
   * `fixed` are the sections no mode and no accommodation changes, `thresholds` the detection settings beside
   * `enabled`.
   */
  datatype Policy = Policy(
    identity: Identity, cameraEnabled: bool, pause: Pause, browser: Browser,
    detectors: Detectors, thresholds: seq<Entry>, evidence: Evidence, fixed: seq<Entry>)

  /* ---------------------------------------------------------------- modes */

  const ALL_OFF := Detectors(false, false, false, false, false, false, false)

  /** policy.ts: a new policy with what cannot apply in its mode switched off. */
  function EnforceModes(p: Policy): Policy {
    if p.cameraEnabled && p.identity.verification == Automatic then p
    else
      var identity := p.identity.(verification := Staff, liveness := NoLiveness, idPhoto := NoPhoto);
      if p.cameraEnabled then p.(identity := identity)
      else p.(identity := identity, detectors := ALL_OFF,
        evidence := p.evidence.(screenshots := false, keepMatching := false))
  }

  /** accommodations.ts: the same rules, assigned section by section to the policy at hand. */
  method EnforceModesOf(policy: Policy) returns (p: Policy)
    ensures p == EnforceModes(policy)
  {
    p := policy;
    if p.cameraEnabled && p.identity.verification == Automatic { return; }
    p := p.(identity := p.identity.(verification := Staff, liveness := NoLiveness, idPhoto := NoPhoto));
    if !p.cameraEnabled {
      p := p.(detectors := ALL_OFF);
      p := p.(evidence := p.evidence.(screenshots := false, keepMatching := false));
    }
  }

  /** What the modes promise every reader of a policy. */
  predicate Consistent(p: Policy) {
    && (p.identity.verification == Staff ==> p.identity.liveness == NoLiveness && p.identity.idPhoto == NoPhoto)
    && (!p.cameraEnabled ==>
         p.identity.verification == Staff && p.detectors == ALL_OFF && !p.evidence.screenshots
           && !p.evidence.keepMatching)
  }

  /** The rules leave exactly the consistent policies alone, and make every policy consistent. */
  lemma ModesAreAClosure(p: Policy)
    ensures Consistent(EnforceModes(p))
    ensures EnforceModes(p) == p <==> Consistent(p)
  {
  }

  /* ---------------------------------------------------------------- sampling presets */

  datatype Sampling = Sampling(burst: int, routineBurst: int, startupInterval: int, startupWindow: int, periodic: int)

  const MAXIMUM := Sampling(3, 3, 6, 180, 15)
  const BALANCED := Sampling(3, 2, 12, 180, 30)

  function SamplingOf(i: Identity): Sampling {
    Sampling(i.burst, i.routineBurst, i.startupInterval, i.startupWindow, i.periodic)
  }

  function ProfileOf(s: Sampling): Profile {
    if s == MAXIMUM then Maximum else if s == BALANCED then Balanced else Custom
  }

  /* ---------------------------------------------------------------- resolving a stored policy */

  datatype IdentityInput = IdentityInput(
    verification: Option<Verification>, staffReverify: Option<bool>, liveness: Option<Liveness>,
    livenessSteps: Option<int>, idPhoto: Option<IdPhoto>, periodic: Option<int>, startupInterval: Option<int>,
    startupWindow: Option<int>, burst: Option<int>, routineBurst: Option<int>, profile: Option<Profile>,
    onMismatch: Option<OnMismatch>, maxAttempts: Option<int>)

  datatype PauseInput = PauseInput(
    allowed: Option<bool>, requireReason: Option<bool>, requireApproval: Option<bool>, timer: Option<Timer>,
    maxPauses: Option<Option<int>>, maxPauseSec: Option<Option<int>>)

  datatype BrowserInput = BrowserInput(
    requireFullscreen: Option<bool>, requireSingleDisplay: Option<bool>, blockClipboard: Option<bool>,
    flagTabHidden: Option<bool>, flagWindowBlur: Option<bool>, windowBlurMinSec: Option<real>)

  datatype DetectorsInput = DetectorsInput(
    absence: Option<bool>, multiplePeople: Option<bool>, lookingAway: Option<bool>, movement: Option<bool>,
    obstruction: Option<bool>, objects: Option<bool>, cameraIntegrity: Option<bool>)

  datatype EvidenceInput = EvidenceInput(
    screenshots: Option<bool>, maxScreenshots: Option<int>, periodicSec: Option<real>, keepMatching: Option<bool>)

  /** A stored policy: any field may be missing. */
  datatype PolicyInput = PolicyInput(
    identity: IdentityInput, cameraEnabled: Option<bool>, pause: PauseInput, browser: BrowserInput,
    detectors: DetectorsInput, thresholds: seq<Entry>, evidence: EvidenceInput, fixed: seq<Entry>)

  function Default<T>(v: Option<T>, d: T): T {
    if v.Some? then v.value else d
  }

  function FillIdentity(i: IdentityInput): Identity {
    var burst := Default(i.burst, 3);
    var routineBurst := Default(i.routineBurst, burst);
    var filled := Identity(
      Default(i.verification, Automatic), Default(i.staffReverify, false), Default(i.liveness, Active),
      Default(i.livenessSteps, 2), Default(i.idPhoto, Advisory), Default(i.periodic, 15), Default(i.startupInterval, 6),
      Default(i.startupWindow, 180), burst, routineBurst, Custom, Default(i.onMismatch, HoldForReview),
      Default(i.maxAttempts, 5));
    filled.(profile := ProfileOf(SamplingOf(filled)))
  }

  function FillDetectors(i: DetectorsInput): Detectors {
    Detectors(Default(i.absence, true), Default(i.multiplePeople, true), Default(i.lookingAway, true),
              Default(i.movement, true), Default(i.obstruction, true), Default(i.objects, true),
              Default(i.cameraIntegrity, true))
  }

  function Fill(i: PolicyInput): Policy {
    Policy(
      FillIdentity(i.identity), Default(i.cameraEnabled, true),
      Pause(Default(i.pause.allowed, true), Default(i.pause.requireReason, false),
            Default(i.pause.requireApproval, false), Default(i.pause.timer, Stop),
            Default(i.pause.maxPauses, None), Default(i.pause.maxPauseSec, None)),
      Browser(Default(i.browser.requireFullscreen, true), Default(i.browser.requireSingleDisplay, false),
              Default(i.browser.blockClipboard, true), Default(i.browser.flagTabHidden, true),
              Default(i.browser.flagWindowBlur, true), Default(i.browser.windowBlurMinSec, 2.0)),
      FillDetectors(i.detectors), i.thresholds,
      Evidence(Default(i.evidence.screenshots, true), Default(i.evidence.maxScreenshots, 4),
               Default(i.evidence.periodicSec, 30.0), Default(i.evidence.keepMatching, false)),
      i.fixed)
  }

  predicate IdentityInBounds(i: Identity) {
    && 2 <= i.livenessSteps <= 4 && 5 <= i.periodic <= 600 && 3 <= i.startupInterval <= 120
    && 0 <= i.startupWindow <= 1800 && 1 <= i.burst <= 5 && 1 <= i.routineBurst <= 5 && 1 <= i.maxAttempts <= 20
  }

  predicate PauseInBounds(p: Pause) {
    (p.maxPauses.Some? ==> p.maxPauses.value >= 0) && (p.maxPauseSec.Some? ==> p.maxPauseSec.value >= 60)
  }

  predicate InBounds(p: Policy) {
    && IdentityInBounds(p.identity) && PauseInBounds(p.pause) && p.browser.windowBlurMinSec >= 0.0
    && 1 <= p.evidence.maxScreenshots <= 20 && p.evidence.periodicSec >= 5.0
  }

  /** `resolvePolicy`: None when a field is out of bounds. */
  function Resolve(i: PolicyInput): Option<Policy> {
    var p := Fill(i);
    if InBounds(p) then Some(EnforceModes(p)) else None
  }

  /** A policy read back as a stored one: every field present. */
  function AsInput(p: Policy): PolicyInput {
    var i := p.identity;
    PolicyInput(
      IdentityInput(Some(i.verification), Some(i.staffReverify), Some(i.liveness), Some(i.livenessSteps),
                    Some(i.idPhoto), Some(i.periodic), Some(i.startupInterval), Some(i.startupWindow),
                    Some(i.burst), Some(i.routineBurst), Some(i.profile), Some(i.onMismatch), Some(i.maxAttempts)),
      Some(p.cameraEnabled),
      PauseInput(Some(p.pause.allowed), Some(p.pause.requireReason), Some(p.pause.requireApproval), Some(p.pause.timer),
                 Some(p.pause.maxPauses), Some(p.pause.maxPauseSec)),
      BrowserInput(Some(p.browser.requireFullscreen), Some(p.browser.requireSingleDisplay),
                   Some(p.browser.blockClipboard), Some(p.browser.flagTabHidden),
                   Some(p.browser.flagWindowBlur), Some(p.browser.windowBlurMinSec)),
      DetectorsInput(Some(p.detectors.absence), Some(p.detectors.multiplePeople), Some(p.detectors.lookingAway),
                     Some(p.detectors.movement), Some(p.detectors.obstruction), Some(p.detectors.objects),
                     Some(p.detectors.cameraIntegrity)),
      p.thresholds,
      EvidenceInput(Some(p.evidence.screenshots), Some(p.evidence.maxScreenshots), Some(p.evidence.periodicSec),
                    Some(p.evidence.keepMatching)),
      p.fixed)
  }

  /** A policy as resolving leaves it: within bounds, labelled by its own numbers, consistent with its modes. */
  predicate Resolved(p: Policy) {
    InBounds(p) && p.identity.profile == ProfileOf(SamplingOf(p.identity)) && Consistent(p)
  }

  /** Resolved policies are exactly those that resolving again leaves alone. */
  lemma ResolvedIffFixpoint(p: Policy)
    ensures Resolved(p) <==> Resolve(AsInput(p)) == Some(p)
  {
    var filled := Fill(AsInput(p));
    assert filled == p.(identity := p.identity.(profile := ProfileOf(SamplingOf(p.identity))));
    ModesAreAClosure(p);
    ModesAreAClosure(filled);
  }

  /** Whatever is stored, resolving it once is resolving it for good. */
  lemma ResolveIsIdempotent(i: PolicyInput)
    requires Resolve(i).Some?
    ensures Resolved(Resolve(i).value) && Resolve(AsInput(Resolve(i).value)) == Resolve(i)
  {
    ModesAreAClosure(Fill(i));
    ResolvedIffFixpoint(Resolve(i).value);
  }

  /* ---------------------------------------------------------------- defaults and bounds */

  /** A stored policy without any field. */
  const NOTHING_STORED := PolicyInput(
    IdentityInput(None, None, None, None, None, None, None, None, None, None, None, None, None), None,
    PauseInput(None, None, None, None, None, None), BrowserInput(None, None, None, None, None, None),
    DetectorsInput(None, None, None, None, None, None, None), [], EvidenceInput(None, None, None, None), [])

  /** What it stands for: automatic identity checks of the maximum profile, everything observed, free pauses. */
  lemma NothingStoredResolvesTo()
    ensures Resolve(NOTHING_STORED) == Some(Policy(
      Identity(Automatic, false, Active, 2, Advisory, 15, 6, 180, 3, 3, Maximum, HoldForReview, 5), true,
      Pause(true, false, false, Stop, None, None), Browser(true, false, true, true, true, 2.0),
      Detectors(true, true, true, true, true, true, true), [], Evidence(true, 4, 30.0, false), []))
  {
  }

  /** A routine burst that is not stored is as large as the burst; the profile follows the numbers. */
  lemma SamplingFollows(i: PolicyInput, burst: int, profile: Profile)
    requires 1 <= burst <= 5
    ensures var identity := NOTHING_STORED.identity.(burst := Some(burst), profile := Some(profile));
      var p := Resolve(NOTHING_STORED.(identity := identity));
      p.Some? && p.value.identity.routineBurst == burst
      && p.value.identity.profile == if burst == 3 then Maximum else Custom
  {
  }

  /** The numbers of the balanced preset are labelled so, whatever label is stored. */
  lemma BalancedIsRecognised(profile: Option<Profile>)
    ensures var identity := NOTHING_STORED.identity.(
        burst := Some(3), routineBurst := Some(2), startupInterval := Some(12), startupWindow := Some(180),
        periodic := Some(30), profile := profile);
      var p := Resolve(NOTHING_STORED.(identity := identity));
      p.Some? && p.value.identity.profile == Balanced
  {
  }

  predicate Resolves(identity: IdentityInput) {
    Resolve(NOTHING_STORED.(identity := identity)).Some?
  }

  /** Each number of the identity section resolves exactly within its bounds. */
  lemma IdentityBounds(n: int)
    ensures var i := NOTHING_STORED.identity;
      && (Resolves(i.(livenessSteps := Some(n))) <==> 2 <= n <= 4)
      && (Resolves(i.(periodic := Some(n))) <==> 5 <= n <= 600)
      && (Resolves(i.(startupInterval := Some(n))) <==> 3 <= n <= 120)
      && (Resolves(i.(startupWindow := Some(n))) <==> 0 <= n <= 1800)
  {
  }

  lemma SampleBounds(n: int)
    ensures var i := NOTHING_STORED.identity;
      && (Resolves(i.(burst := Some(n))) <==> 1 <= n <= 5)
      && (Resolves(i.(routineBurst := Some(n))) <==> 1 <= n <= 5)
      && (Resolves(i.(maxAttempts := Some(n))) <==> 1 <= n <= 20)
  {
  }

  /** So do the limits on pauses and the numbers of the other sections. */
  lemma OtherBounds(n: int, x: real)
    ensures var s := NOTHING_STORED;
      && (Resolve(s.(pause := s.pause.(maxPauses := Some(Some(n))))).Some? <==> n >= 0)
      && (Resolve(s.(pause := s.pause.(maxPauseSec := Some(Some(n))))).Some? <==> n >= 60)
      && (Resolve(s.(browser := s.browser.(windowBlurMinSec := Some(x)))).Some? <==> x >= 0.0)
      && (Resolve(s.(evidence := s.evidence.(maxScreenshots := Some(n)))).Some? <==> 1 <= n <= 20)
      && (Resolve(s.(evidence := s.evidence.(periodicSec := Some(x)))).Some? <==> x >= 5.0)
  {
  }
}
