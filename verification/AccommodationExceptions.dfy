/** The settings accommodations changed: listed, attributed, and undone. */
module AccommodationExceptions {
  import opened JsonValues
  import opened PolicyTree
  import opened Policies
  import opened Accommodations

  /* ---------------------------------------------------------------- the stored form of a policy */

  function Text(s: string): Tree { Leaf(Some(Str(s))) }
  function Flag(b: bool): Tree { Leaf(Some(Bool(b))) }
  function Number(x: int): Tree { Leaf(Some(Num(x as real))) }
  function Limit(x: Option<int>): Tree { if x.None? then Leaf(Some(Null)) else Number(x.value) }

  function VerificationText(v: Verification): string { if v == Automatic then "automatic" else "staff" }
  function LivenessText(l: Liveness): string { if l == Active then "active" else "off" }
  function PhotoText(i: IdPhoto): string {
    if i == NoPhoto then "off" else if i == Advisory then "advisory" else "required"
  }

  function TimerText(t: Timer): string { if t == Stop then "stop" else "continue" }

  function ProfileText(p: Profile): string {
    if p == Maximum then "maximum" else if p == Balanced then "balanced" else "custom"
  }

  function IdentityEntries(i: Identity): seq<Entry> {
    [Entry("verification", Text(VerificationText(i.verification))),
     Entry("staffReverifyOnContinue", Flag(i.staffReverify)),
     Entry("liveness", Text(LivenessText(i.liveness))),
     Entry("livenessSteps", Number(i.livenessSteps)),
     Entry("idPhotoComparison", Text(PhotoText(i.idPhoto))),
     Entry("periodicCheckIntervalSec", Number(i.periodic)),
     Entry("startupIntervalSec", Number(i.startupInterval)),
     Entry("startupWindowSec", Number(i.startupWindow)),
     Entry("burstSize", Number(i.burst)),
     Entry("routineBurstSize", Number(i.routineBurst)),
     Entry("samplingProfile", Text(ProfileText(i.profile))),
     Entry("onMismatch", Text(if i.onMismatch == HoldForReview then "hold_for_review" else "flag_only")),
     Entry("maxVerificationAttempts", Number(i.maxAttempts))]
  }

  function PauseEntries(p: Pause): seq<Entry> {
    [Entry("allowed", Flag(p.allowed)),
     Entry("requireReason", Flag(p.requireReason)),
     Entry("requireApproval", Flag(p.requireApproval)),
     Entry("timerBehavior", Text(TimerText(p.timer))),
     Entry("maxPauses", Limit(p.maxPauses)),
     Entry("maxPauseDurationSec", Limit(p.maxPauseSec))]
  }

  function BrowserEntries(b: Browser): seq<Entry> {
    [Entry("requireFullscreen", Flag(b.requireFullscreen)),
     Entry("requireSingleDisplay", Flag(b.requireSingleDisplay)),
     Entry("blockClipboard", Flag(b.blockClipboard)),
     Entry("flagTabHidden", Flag(b.flagTabHidden)),
     Entry("flagWindowBlur", Flag(b.flagWindowBlur)),
     Entry("windowBlurMinSec", Leaf(Some(Num(b.windowBlurMinSec))))]
  }

  function DetectorEntries(d: Detectors): seq<Entry> {
    [Entry("absence", Flag(d.absence)),
     Entry("multiplePeople", Flag(d.multiplePeople)),
     Entry("lookingAway", Flag(d.lookingAway)),
     Entry("movement", Flag(d.movement)),
     Entry("obstruction", Flag(d.obstruction)),
     Entry("objects", Flag(d.objects)),
     Entry("cameraIntegrity", Flag(d.cameraIntegrity))]
  }

  function EvidenceEntries(e: Evidence): seq<Entry> {
    [Entry("screenshots", Flag(e.screenshots)),
     Entry("maxScreenshotsPerEvent", Number(e.maxScreenshots)),
     Entry("periodicScreenshotSec", Leaf(Some(Num(e.periodicSec)))),
     Entry("keepMatchingIdentitySamples", Flag(e.keepMatching))]
  }

  function DetectionEntries(p: Policy): seq<Entry> {
    [Entry("enabled", Branch(DetectorEntries(p.detectors)))] + p.thresholds
  }

  function Sections(p: Policy): seq<Entry> {
    [Entry("identity", Branch(IdentityEntries(p.identity))),
     Entry("camera", Branch([Entry("enabled", Flag(p.cameraEnabled))])),
     Entry("pause", Branch(PauseEntries(p.pause))),
     Entry("browser", Branch(BrowserEntries(p.browser))),
     Entry("detection", Branch(DetectionEntries(p))),
     Entry("evidence", Branch(EvidenceEntries(p.evidence)))]
  }

  function ToTree(p: Policy): Tree {
    Branch(Sections(p) + p.fixed)
  }

  const SECTION_NAMES := {"identity", "camera", "pause", "browser", "detection", "evidence"}

  /** The sections and thresholds no accommodation changes have keys of their own. */
  predicate Storable(p: Policy) {
    && WellKeyed(Branch(p.thresholds)) && WellKeyed(Branch(p.fixed))
    && (forall i :: 0 <= i < |p.thresholds| ==> p.thresholds[i].key != "enabled")
    && (forall i :: 0 <= i < |p.fixed| ==> p.fixed[i].key !in SECTION_NAMES && p.fixed[i].tree.Branch?)
  }

  /* ---------------------------------------------------------------- keys are distinct */

  /** Tells the keys of a section apart: length and first letter. */
  function Code(key: string): int {
    if key == "" then 0 else |key| * 1000 + key[0] as int
  }

  lemma DistinctByCode(entries: seq<Entry>, codes: seq<int>)
    requires |codes| == |entries|
    requires forall i :: 0 <= i < |entries| ==>
      Code(entries[i].key) == codes[i] && PlainKey(entries[i].key) && WellKeyed(entries[i].tree)
    requires forall i, j :: 0 <= i < j < |codes| ==> codes[i] != codes[j]
    ensures WellKeyed(Branch(entries))
  {
    forall i, j | 0 <= i < j < |entries| ensures entries[i].key != entries[j].key { assert codes[i] != codes[j]; }
  }

  lemma IdentityKeys()
    ensures Code("verification") == 12118 && PlainKey("verification")
    ensures Code("staffReverifyOnContinue") == 23115 && PlainKey("staffReverifyOnContinue")
    ensures Code("liveness") == 8108 && PlainKey("liveness")
    ensures Code("livenessSteps") == 13108 && PlainKey("livenessSteps")
    ensures Code("idPhotoComparison") == 17105 && PlainKey("idPhotoComparison")
  {
  }

  lemma CheckKeys()
    ensures Code("periodicCheckIntervalSec") == 24112 && PlainKey("periodicCheckIntervalSec")
    ensures Code("startupIntervalSec") == 18115 && PlainKey("startupIntervalSec")
    ensures Code("startupWindowSec") == 16115 && PlainKey("startupWindowSec")
    ensures Code("burstSize") == 9098 && PlainKey("burstSize")
  {
  }

  lemma SamplingKeys()
    ensures Code("routineBurstSize") == 16114 && PlainKey("routineBurstSize")
    ensures Code("samplingProfile") == 15115 && PlainKey("samplingProfile")
    ensures Code("onMismatch") == 10111 && PlainKey("onMismatch")
    ensures Code("maxVerificationAttempts") == 23109 && PlainKey("maxVerificationAttempts")
  {
  }

  lemma IdentityKeyed(i: Identity)
    ensures WellKeyed(Branch(IdentityEntries(i)))
  {
    IdentityKeys();
    CheckKeys();
    SamplingKeys();
    DistinctByCode(IdentityEntries(i), [12118, 23115, 8108, 13108, 17105, 24112, 18115, 16115, 9098, 16114, 15115,
      10111, 23109]);
  }

  lemma PauseKeyed(p: Pause)
    ensures WellKeyed(Branch(PauseEntries(p)))
  {
    assert Code("allowed") == 7097 && PlainKey("allowed");
    assert Code("requireReason") == 13114 && PlainKey("requireReason");
    assert Code("requireApproval") == 15114 && PlainKey("requireApproval");
    assert Code("timerBehavior") == 13116 && PlainKey("timerBehavior");
    assert Code("maxPauses") == 9109 && PlainKey("maxPauses");
    assert Code("maxPauseDurationSec") == 19109 && PlainKey("maxPauseDurationSec");
    DistinctByCode(PauseEntries(p), [7097, 13114, 15114, 13116, 9109, 19109]);
  }

  lemma BrowserKeyed(b: Browser)
    ensures WellKeyed(Branch(BrowserEntries(b)))
  {
    assert Code("requireFullscreen") == 17114 && PlainKey("requireFullscreen");
    assert Code("requireSingleDisplay") == 20114 && PlainKey("requireSingleDisplay");
    assert Code("blockClipboard") == 14098 && PlainKey("blockClipboard");
    assert Code("flagTabHidden") == 13102 && PlainKey("flagTabHidden");
    assert Code("flagWindowBlur") == 14102 && PlainKey("flagWindowBlur");
    assert Code("windowBlurMinSec") == 16119 && PlainKey("windowBlurMinSec");
    DistinctByCode(BrowserEntries(b), [17114, 20114, 14098, 13102, 14102, 16119]);
  }

  lemma DetectorKeyed(d: Detectors)
    ensures WellKeyed(Branch(DetectorEntries(d)))
  {
    assert Code("absence") == 7097 && PlainKey("absence");
    assert Code("multiplePeople") == 14109 && PlainKey("multiplePeople");
    assert Code("lookingAway") == 11108 && PlainKey("lookingAway");
    assert Code("movement") == 8109 && PlainKey("movement");
    assert Code("obstruction") == 11111 && PlainKey("obstruction");
    assert Code("objects") == 7111 && PlainKey("objects");
    assert Code("cameraIntegrity") == 15099 && PlainKey("cameraIntegrity");
    DistinctByCode(DetectorEntries(d), [7097, 14109, 11108, 8109, 11111, 7111, 15099]);
  }

  lemma EvidenceKeyed(e: Evidence)
    ensures WellKeyed(Branch(EvidenceEntries(e)))
  {
    assert Code("screenshots") == 11115 && PlainKey("screenshots");
    assert Code("maxScreenshotsPerEvent") == 22109 && PlainKey("maxScreenshotsPerEvent");
    assert Code("periodicScreenshotSec") == 21112 && PlainKey("periodicScreenshotSec");
    assert Code("keepMatchingIdentitySamples") == 27107 && PlainKey("keepMatchingIdentitySamples");
    DistinctByCode(EvidenceEntries(e), [11115, 22109, 21112, 27107]);
  }

  lemma SectionKeys()
    ensures Code("identity") == 8105 && PlainKey("identity")
    ensures Code("camera") == 6099 && PlainKey("camera")
    ensures Code("pause") == 5112 && PlainKey("pause")
    ensures Code("browser") == 7098 && PlainKey("browser")
    ensures Code("detection") == 9100 && PlainKey("detection")
    ensures Code("evidence") == 8101 && PlainKey("evidence")
    ensures PlainKey("enabled")
  {
  }

  lemma CameraKeyed(b: bool)
    ensures WellKeyed(Branch([Entry("enabled", Flag(b))]))
  {
    SectionKeys();
  }

  lemma DetectionKeyed(p: Policy)
    requires Storable(p)
    ensures WellKeyed(Branch(DetectionEntries(p)))
  {
    SectionKeys();
    DetectorKeyed(p.detectors);
    var entries := DetectionEntries(p);
    forall i | 0 <= i < |entries| ensures PlainKey(entries[i].key) && WellKeyed(entries[i].tree) {
      assert i > 0 ==> entries[i] == p.thresholds[i - 1];
    }
    forall i, j | 0 <= i < j < |entries| ensures entries[i].key != entries[j].key {
      assert entries[j] == p.thresholds[j - 1];
      assert i > 0 ==> entries[i] == p.thresholds[i - 1];
    }
  }

  lemma SectionNames(p: Policy)
    ensures forall i :: 0 <= i < |Sections(p)| ==> Sections(p)[i].key in SECTION_NAMES && Sections(p)[i].tree.Branch?
  {
  }

  lemma SectionTrees(p: Policy)
    requires Storable(p)
    ensures forall i :: 0 <= i < |Sections(p)| ==> WellKeyed(Sections(p)[i].tree)
  {
    IdentityKeyed(p.identity);
    CameraKeyed(p.cameraEnabled);
    PauseKeyed(p.pause);
    BrowserKeyed(p.browser);
    DetectionKeyed(p);
    EvidenceKeyed(p.evidence);
  }

  lemma SectionCodes(p: Policy, i: nat)
    requires i < |Sections(p)|
    ensures Code(Sections(p)[i].key) == [8105, 6099, 5112, 7098, 9100, 8101][i] && PlainKey(Sections(p)[i].key)
  {
    SectionKeys();
  }

  lemma SectionsKeyed(p: Policy)
    requires Storable(p)
    ensures WellKeyed(Branch(Sections(p)))
    ensures forall i :: 0 <= i < |Sections(p)| ==> Sections(p)[i].key in SECTION_NAMES && Sections(p)[i].tree.Branch?
  {
    var sections, codes := Sections(p), [8105, 6099, 5112, 7098, 9100, 8101];
    SectionNames(p);
    SectionTrees(p);
    forall i | 0 <= i < |sections| ensures Code(sections[i].key) == codes[i] && PlainKey(sections[i].key) {
      SectionCodes(p, i);
    }
    DistinctByCode(sections, codes);
  }

  /** A stored policy is a tree with plain, distinct keys, and no setting of it is mistaken for extra time. */
  lemma StoredWell(p: Policy)
    requires Storable(p)
    ensures WellKeyed(ToTree(p)) && NoDuration(ToTree(p))
  {
    SectionsKeyed(p);
    var sections, entries := Sections(p), ToTree(p).entries;
    forall i | 0 <= i < |entries|
      ensures PlainKey(entries[i].key) && WellKeyed(entries[i].tree) && entries[i].tree.Branch?
    {
      assert entries[i] == if i < |sections| then sections[i] else p.fixed[i - |sections|];
    }
    forall i, j | 0 <= i < j < |entries| ensures entries[i].key != entries[j].key {
      assert entries[i] == if i < |sections| then sections[i] else p.fixed[i - |sections|];
      assert entries[j] == if j < |sections| then sections[j] else p.fixed[j - |sections|];
    }
  }

  /* ---------------------------------------------------------------- the round trip */

  lemma LeavesSameShape(a: seq<Entry>, b: seq<Entry>)
    requires |a| == |b| && forall i :: 0 <= i < |a| ==> a[i].key == b[i].key && a[i].tree.Leaf? && b[i].tree.Leaf?
    ensures SameShape(Branch(a), Branch(b))
  {
  }

  lemma DetectionSameShape(p: Policy, q: Policy)
    requires p.thresholds == q.thresholds
    ensures SameShape(Branch(DetectionEntries(p)), Branch(DetectionEntries(q)))
  {
    LeavesSameShape(DetectorEntries(p.detectors), DetectorEntries(q.detectors));
    ConcatSameShape([Entry("enabled", Branch(DetectorEntries(p.detectors)))],
                    [Entry("enabled", Branch(DetectorEntries(q.detectors)))], p.thresholds);
  }

  lemma IdentitySameShape(i: Identity, j: Identity)
    ensures SameShape(Branch(IdentityEntries(i)), Branch(IdentityEntries(j)))
  {
    var a, b := IdentityEntries(i), IdentityEntries(j);
    forall n | 0 <= n < 13 ensures a[n].key == b[n].key && a[n].tree.Leaf? && b[n].tree.Leaf? { }
    LeavesSameShape(a, b);
  }

  lemma PauseSameShape(p: Pause, q: Pause)
    ensures SameShape(Branch(PauseEntries(p)), Branch(PauseEntries(q)))
  {
    LeavesSameShape(PauseEntries(p), PauseEntries(q));
  }

  lemma BrowserSameShape(p: Browser, q: Browser)
    ensures SameShape(Branch(BrowserEntries(p)), Branch(BrowserEntries(q)))
  {
    LeavesSameShape(BrowserEntries(p), BrowserEntries(q));
  }

  lemma EvidenceSameShape(p: Evidence, q: Evidence)
    ensures SameShape(Branch(EvidenceEntries(p)), Branch(EvidenceEntries(q)))
  {
    LeavesSameShape(EvidenceEntries(p), EvidenceEntries(q));
  }

  lemma SectionsSameShape(p: Policy, q: Policy, i: nat)
    requires p.thresholds == q.thresholds && i < |Sections(p)|
    ensures Sections(p)[i].key == Sections(q)[i].key && SameShape(Sections(p)[i].tree, Sections(q)[i].tree)
  {
    IdentitySameShape(p.identity, q.identity);
    LeavesSameShape([Entry("enabled", Flag(p.cameraEnabled))], [Entry("enabled", Flag(q.cameraEnabled))]);
    PauseSameShape(p.pause, q.pause);
    BrowserSameShape(p.browser, q.browser);
    DetectionSameShape(p, q);
    EvidenceSameShape(p.evidence, q.evidence);
  }

  lemma ConcatSameShape(a: seq<Entry>, b: seq<Entry>, rest: seq<Entry>)
    requires |a| == |b| && forall i :: 0 <= i < |a| ==> a[i].key == b[i].key && SameShape(a[i].tree, b[i].tree)
    ensures SameShape(Branch(a + rest), Branch(b + rest))
  {
    var x, y := a + rest, b + rest;
    forall i | 0 <= i < |x| ensures x[i].key == y[i].key && SameShape(x[i].tree, y[i].tree) {
      if i >= |a| {
        assert x[i] == rest[i - |a|] && y[i] == rest[i - |a|];
        SameShapeRefl(x[i].tree);
      } else {
        assert x[i] == a[i] && y[i] == b[i];
      }
    }
  }

  /** Policies with the same fixed parts store the same settings. */
  lemma StoredSameShape(p: Policy, q: Policy)
    requires p.thresholds == q.thresholds && p.fixed == q.fixed
    ensures SameShape(ToTree(p), ToTree(q))
  {
    var a, b := Sections(p), Sections(q);
    forall i | 0 <= i < |a| ensures a[i].key == b[i].key && SameShape(a[i].tree, b[i].tree) {
      SectionsSameShape(p, q, i);
    }
    ConcatSameShape(a, b, p.fixed);
  }

  lemma {:induction false} FoldKeepsFixed(p: Policy, items: seq<Spec>)
    ensures Fold(p, items).thresholds == p.thresholds && Fold(p, items).fixed == p.fixed
    decreases |items|
  {
    if items != [] { FoldKeepsFixed(p, items[..|items| - 1]); }
  }

  /** From an applied policy and its exceptions the exam's own rules come back, with or without extra time. */
  lemma ExamRulesComeBack(p: Policy, items: seq<Spec>, baseMs: int, extraMs: Option<int>)
    requires Storable(p)
    ensures var applied := ToTree(Apply(p, items));
      Reverted(applied, Exceptions(ToTree(p), applied, baseMs, extraMs)) == ToTree(p)
  {
    var q := Apply(p, items);
    FoldKeepsFixed(p, items);
    StoredWell(p);
    StoredWell(q);
    StoredSameShape(p, q);
    RoundTripIffSameShape(ToTree(p), ToTree(q), baseMs, extraMs);
  }
}
