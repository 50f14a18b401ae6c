/** Which accommodation an exception is put down to. */
module AccommodationAttribution {
  import opened JsonValues
  import opened PolicyTree
  import opened Policies
  import opened Accommodations
  import opened AccommodationExceptions

  /** The settings accommodations can change. */
  datatype Rule =
    | VerificationRule | ReverifyRule | LivenessRule | IdPhotoRule
    | CameraRule
    | AllowedRule | ReasonRule | ApprovalRule | TimerRule | MaxPausesRule | MaxPauseLengthRule
    | FullscreenRule | SingleDisplayRule | ClipboardRule | WindowBlurRule
    | AbsenceRule | MultiplePeopleRule | LookingAwayRule | MovementRule | ObstructionRule | ObjectsRule
    | CameraIntegrityRule
    | ScreenshotsRule | KeepMatchingRule

  function Keys(r: Rule): seq<string> {
    match r
    case VerificationRule => ["identity", "verification"]
    case ReverifyRule => ["identity", "staffReverifyOnContinue"]
    case LivenessRule => ["identity", "liveness"]
    case IdPhotoRule => ["identity", "idPhotoComparison"]
    case CameraRule => ["camera", "enabled"]
    case AllowedRule => ["pause", "allowed"]
    case ReasonRule => ["pause", "requireReason"]
    case ApprovalRule => ["pause", "requireApproval"]
    case TimerRule => ["pause", "timerBehavior"]
    case MaxPausesRule => ["pause", "maxPauses"]
    case MaxPauseLengthRule => ["pause", "maxPauseDurationSec"]
    case FullscreenRule => ["browser", "requireFullscreen"]
    case SingleDisplayRule => ["browser", "requireSingleDisplay"]
    case ClipboardRule => ["browser", "blockClipboard"]
    case WindowBlurRule => ["browser", "flagWindowBlur"]
    case AbsenceRule => ["detection", "enabled", "absence"]
    case MultiplePeopleRule => ["detection", "enabled", "multiplePeople"]
    case LookingAwayRule => ["detection", "enabled", "lookingAway"]
    case MovementRule => ["detection", "enabled", "movement"]
    case ObstructionRule => ["detection", "enabled", "obstruction"]
    case ObjectsRule => ["detection", "enabled", "objects"]
    case CameraIntegrityRule => ["detection", "enabled", "cameraIntegrity"]
    case ScreenshotsRule => ["evidence", "screenshots"]
    case KeepMatchingRule => ["evidence", "keepMatchingIdentitySamples"]
  }

  function TreeOf(p: Policy, r: Rule): (t: Tree)
    ensures t.Leaf?
  {
    match r
    case VerificationRule => Text(VerificationText(p.identity.verification))
    case ReverifyRule => Flag(p.identity.staffReverify)
    case LivenessRule => Text(LivenessText(p.identity.liveness))
    case IdPhotoRule => Text(PhotoText(p.identity.idPhoto))
    case CameraRule => Flag(p.cameraEnabled)
    case AllowedRule => Flag(p.pause.allowed)
    case ReasonRule => Flag(p.pause.requireReason)
    case ApprovalRule => Flag(p.pause.requireApproval)
    case TimerRule => Text(TimerText(p.pause.timer))
    case MaxPausesRule => Limit(p.pause.maxPauses)
    case MaxPauseLengthRule => Limit(p.pause.maxPauseSec)
    case FullscreenRule => Flag(p.browser.requireFullscreen)
    case SingleDisplayRule => Flag(p.browser.requireSingleDisplay)
    case ClipboardRule => Flag(p.browser.blockClipboard)
    case WindowBlurRule => Flag(p.browser.flagWindowBlur)
    case AbsenceRule => Flag(p.detectors.absence)
    case MultiplePeopleRule => Flag(p.detectors.multiplePeople)
    case LookingAwayRule => Flag(p.detectors.lookingAway)
    case MovementRule => Flag(p.detectors.movement)
    case ObstructionRule => Flag(p.detectors.obstruction)
    case ObjectsRule => Flag(p.detectors.objects)
    case CameraIntegrityRule => Flag(p.detectors.cameraIntegrity)
    case ScreenshotsRule => Flag(p.evidence.screenshots)
    case KeepMatchingRule => Flag(p.evidence.keepMatching)
  }

  function Value(p: Policy, r: Rule): Val {
    TreeOf(p, r).value
  }

  /* ---------------------------------------------------------------- attribution by path prefix */

  /** The kinds of the first listed prefix of a path. */
  function KindsForPath(path: string): seq<Kind> {
    if "pause." <= path then [RestBreaksKind]
    else if "identity.liveness" <= path then [NoLivenessKind, StaffKind, NoCameraKind]
    else if "identity.idPhotoComparison" <= path then [StaffKind, NoCameraKind]
    else if "identity." <= path then [StaffKind, NoCameraKind]
    else if "camera." <= path then [NoCameraKind]
    else if "browser." <= path then [AssistiveKind]
    else if "detection.enabled.multiplePeople" <= path then [SupportPersonKind, ExemptionsKind, NoCameraKind]
    else if "detection.enabled." <= path then [ExemptionsKind, NoCameraKind]
    else if "evidence." <= path then [NoCameraKind]
    else []
  }

  predicate IsPresent(items: seq<Spec>, k: Kind) {
    exists i :: 0 <= i < |items| && KindOf(items[i]) == k
  }

  function Filter(kinds: seq<Kind>, items: seq<Spec>): (r: seq<Kind>)
    ensures forall k :: k in r <==> k in kinds && IsPresent(items, k)
  {
    if kinds == [] then [] else (if IsPresent(items, kinds[0]) then [kinds[0]] else []) + Filter(kinds[1..], items)
  }

  /** The kinds an exception names: those listed for its path, among the ones granted. */
  function Attributed(path: string, items: seq<Spec>): seq<Kind> {
    Filter(KindsForPath(path), items)
  }

  lemma KindsAssociate(a: seq<Kind>, b: seq<Kind>, c: seq<Kind>)
    ensures a + (b + c) == (a + b) + c
  {
  }

  lemma FilterOne(k: Kind, items: seq<Spec>)
    ensures Filter([k], items) == if IsPresent(items, k) then [k] else []
  {
    var none: seq<Kind> := [];
    assert [k][1..] == none && Filter(none, items) == none;
  }

  lemma FilterStep(k: Kind, kinds: seq<Kind>, items: seq<Spec>)
    ensures Filter([k] + kinds, items) == Filter([k], items) + Filter(kinds, items)
  {
    FilterOne(k, items);
    assert ([k] + kinds)[1..] == kinds;
  }

  /** Kinds are named in the order in which they are listed, each if it is among the granted ones. */
  lemma {:induction false} NamedInOrder(a: seq<Kind>, k: Kind, b: seq<Kind>, items: seq<Spec>)
    ensures Filter(a + b, items) == Filter(a, items) + Filter(b, items)
    ensures Filter([k], items) == if IsPresent(items, k) then [k] else []
    decreases |a|
  {
    FilterOne(k, items);
    if a == [] {
      assert a + b == b;
    } else {
      NamedInOrder(a[1..], k, b, items);
      KindsAssociate([a[0]], a[1..], b);
      assert a == [a[0]] + a[1..];
      FilterStep(a[0], a[1..], items);
      FilterStep(a[0], a[1..] + b, items);
      KindsAssociate(Filter([a[0]], items), Filter(a[1..], items), Filter(b, items));
    }
  }

  function Path(r: Rule): string {
    PathOf("", Keys(r))
  }

  lemma TwoKeys(a: string, b: string)
    requires a != "" && b != ""
    ensures PathOf("", [a, b]) == a + "." + b
  {
    assert [a, b][1..] == [b] && [b][1..] == [];
    assert PathOf("", [a, b]) == PathOf(a, [b]) == PathOf(Dotted(a, b), []);
  }

  lemma ThreeKeys(a: string, b: string, c: string)
    requires a != "" && b != "" && c != ""
    ensures PathOf("", [a, b, c]) == a + "." + b + "." + c
  {
    assert [a, b, c][1..] == [b, c] && [b, c][1..] == [c] && [c][1..] == [];
    assert PathOf("", [a, b, c]) == PathOf(a, [b, c]) == PathOf(Dotted(a, b), [c])
      == PathOf(Dotted(Dotted(a, b), c), []);
  }

  /** The kinds listed for the path of a rule, rule by rule; which of them can change it is `ListedIffCanChange`. */
  function Listed(r: Rule): seq<Kind> {
    match r
    case VerificationRule => [StaffKind, NoCameraKind]
    case ReverifyRule => [StaffKind, NoCameraKind]
    case LivenessRule => [NoLivenessKind, StaffKind, NoCameraKind]
    case IdPhotoRule => [StaffKind, NoCameraKind]
    case CameraRule => [NoCameraKind]
    case AllowedRule => [RestBreaksKind]
    case ReasonRule => [RestBreaksKind]
    case ApprovalRule => [RestBreaksKind]
    case TimerRule => [RestBreaksKind]
    case MaxPausesRule => [RestBreaksKind]
    case MaxPauseLengthRule => [RestBreaksKind]
    case FullscreenRule => [AssistiveKind]
    case SingleDisplayRule => [AssistiveKind]
    case ClipboardRule => [AssistiveKind]
    case WindowBlurRule => [AssistiveKind]
    case MultiplePeopleRule => [SupportPersonKind, ExemptionsKind, NoCameraKind]
    case ScreenshotsRule => [NoCameraKind]
    case KeepMatchingRule => [NoCameraKind]
    case _ => [ExemptionsKind, NoCameraKind]
  }

  /* ---------------------------------------------------------------- causes */

  ghost predicate Caused(p: Policy, items: seq<Spec>, r: Rule) {
    exists i :: 0 <= i < |items| && KindOf(items[i]) in Listed(r) && Value(Apply(p, [items[i]]), r) != Value(p, r)
  }

  lemma ApplyOne(p: Policy, a: Spec)
    ensures Apply(p, [a]) == EnforceModes(Step(p, a))
  {
    assert [a][..0] == [] && Fold(p, [a]) == Step(Fold(p, []), a);
  }

  predicate AboutPause(r: Rule) {
    r.AllowedRule? || r.ReasonRule? || r.ApprovalRule? || r.TimerRule? || r.MaxPausesRule? || r.MaxPauseLengthRule?
  }

  predicate AboutIdentity(r: Rule) {
    r.VerificationRule? || r.ReverifyRule? || r.LivenessRule? || r.IdPhotoRule? || r.CameraRule?
  }

  lemma PauseCause(p: Policy, mid: Policy, a: Spec, r: Rule)
    requires Resolved(p) && ValidSpec(a) && AboutPause(r)
    requires Value(mid, r) == Value(p, r) && Value(Step(mid, a), r) != Value(p, r)
    requires p.pause.allowed ==> mid.pause.allowed
    requires !mid.pause.allowed ==> mid.pause == p.pause
    ensures KindOf(a) in Listed(r) && Value(EnforceModes(Step(p, a)), r) != Value(p, r)
  {
    OnlyBreaksChangePauses(mid, a, r);
    ModesKeepPauses(Step(p, a), r);
    BreaksChangeFromTheStart(p, mid, a, r);
  }

  lemma OnlyBreaksChangePauses(p: Policy, a: Spec, r: Rule)
    requires AboutPause(r) && Value(Step(p, a), r) != Value(p, r)
    ensures a.RestBreaks?
  {
  }

  lemma ModesKeepPauses(p: Policy, r: Rule)
    requires AboutPause(r)
    ensures Value(EnforceModes(p), r) == Value(p, r)
  {
    assert EnforceModes(p).pause == p.pause;
  }

  lemma BreaksChangeFromTheStart(p: Policy, mid: Policy, a: Spec, r: Rule)
    requires Resolved(p) && ValidSpec(a) && AboutPause(r) && a.RestBreaks?
    requires Value(mid, r) == Value(p, r) && Value(Step(mid, a), r) != Value(p, r)
    requires p.pause.allowed ==> mid.pause.allowed
    requires !mid.pause.allowed ==> mid.pause == p.pause
    ensures Value(Step(p, a), r) != Value(p, r)
  {
  }

  lemma IdentityCause(p: Policy, mid: Policy, a: Spec, r: Rule)
    requires AboutIdentity(r)
    requires Value(mid, r) == Value(p, r) && Value(Step(mid, a), r) != Value(p, r)
    ensures KindOf(a) in Listed(r) && Value(EnforceModes(Step(p, a)), r) != Value(p, r)
  {
    assert a.NoLivenessChallenge? || a.StaffIdentityVerification? || a.NoCamera?;
  }

  lemma ObservationCause(p: Policy, mid: Policy, a: Spec, r: Rule)
    requires !AboutPause(r) && !AboutIdentity(r)
    requires Value(mid, r) == Value(p, r) && Value(Step(mid, a), r) != Value(p, r)
    ensures KindOf(a) in Listed(r) && Value(EnforceModes(Step(p, a)), r) != Value(p, r)
  {
    assert a.AssistiveTechnology? || a.DetectionExemptions? || a.SupportPerson?;
  }

  /** A step that changes a rule late would have changed it first, and is of a kind listed for it. */
  lemma StepCause(p: Policy, mid: Policy, a: Spec, r: Rule)
    requires Resolved(p) && ValidSpec(a)
    requires Value(mid, r) == Value(p, r) && Value(Step(mid, a), r) != Value(p, r)
    requires p.pause.allowed ==> mid.pause.allowed
    requires !mid.pause.allowed ==> mid.pause == p.pause
    ensures KindOf(a) in Listed(r) && Value(Apply(p, [a]), r) != Value(p, r)
  {
    ApplyOne(p, a);
    if AboutPause(r) {
      PauseCause(p, mid, a, r);
    } else if AboutIdentity(r) {
      IdentityCause(p, mid, a, r);
    } else {
      ObservationCause(p, mid, a, r);
    }
  }

  lemma {:induction false} FoldPause(p: Policy, items: seq<Spec>)
    ensures var q := Fold(p, items);
      (p.pause.allowed ==> q.pause.allowed) && (!q.pause.allowed ==> q.pause == p.pause)
    decreases |items|
  {
    if items != [] { FoldPause(p, items[..|items| - 1]); }
  }

  lemma {:induction false} FoldCause(p: Policy, items: seq<Spec>, r: Rule)
    requires Resolved(p) && forall i :: 0 <= i < |items| ==> ValidSpec(items[i])
    requires Value(Fold(p, items), r) != Value(p, r)
    ensures Caused(p, items, r)
    decreases |items|
  {
    var n := |items| - 1;
    var init := items[..n];
    assert forall i :: 0 <= i < n ==> init[i] == items[i];
    if Value(Fold(p, init), r) != Value(p, r) {
      FoldCause(p, init, r);
      var i :| 0 <= i < |init| && KindOf(init[i]) in Listed(r) && Value(Apply(p, [init[i]]), r) != Value(p, r);
      assert items[i] == init[i];
    } else {
      FoldPause(p, init);
      assert ValidSpec(items[n]);
      StepCause(p, Fold(p, init), items[n], r);
      assert KindOf(items[n]) in Listed(r) && Value(Apply(p, [items[n]]), r) != Value(p, r);
    }
  }

  /** A mode in force after the fold, but not in the exam, was brought by some accommodation. */
  lemma {:induction false} FoldMode(p: Policy, items: seq<Spec>)
    ensures p.cameraEnabled && !Fold(p, items).cameraEnabled ==> exists i :: 0 <= i < |items| && items[i].NoCamera?
    ensures p.identity.verification == Automatic && Fold(p, items).identity.verification == Staff ==>
      exists i :: 0 <= i < |items| && (items[i].NoCamera? || items[i].StaffIdentityVerification?)
    decreases |items|
  {
    if items != [] {
      var init := items[..|items| - 1];
      FoldMode(p, init);
      assert forall i :: 0 <= i < |init| ==> init[i] == items[i];
    }
  }

  /** What the modes switch off on top of the fold is caused by the accommodation that brought the mode. */
  lemma ModeCause(p: Policy, items: seq<Spec>, r: Rule)
    requires Resolved(p)
    requires Value(Fold(p, items), r) == Value(p, r) && Value(EnforceModes(Fold(p, items)), r) != Value(p, r)
    ensures Caused(p, items, r)
  {
    FoldMode(p, items);
    if AboutIdentity(r) {
      var i :| 0 <= i < |items| && (items[i].NoCamera? || items[i].StaffIdentityVerification?);
      ApplyOne(p, items[i]);
      ModeOfOne(p, items, items[i], r);
    } else {
      var i :| 0 <= i < |items| && items[i].NoCamera?;
      ApplyOne(p, items[i]);
      ModeOfOne(p, items, items[i], r);
    }
  }

  lemma ModeOfOne(p: Policy, items: seq<Spec>, a: Spec, r: Rule)
    requires Resolved(p)
    requires Value(Fold(p, items), r) == Value(p, r) && Value(EnforceModes(Fold(p, items)), r) != Value(p, r)
    requires a.NoCamera? || (a.StaffIdentityVerification? && AboutIdentity(r))
    ensures KindOf(a) in Listed(r) && Value(EnforceModes(Step(p, a)), r) != Value(p, r)
  {
    ModesLeavePause(p, items);
    var e := EnforceModes(Step(p, a));
    assert e.identity.verification == Staff && e.identity.liveness == NoLiveness && e.identity.idPhoto == NoPhoto;
    assert a.NoCamera? ==> e.detectors == ALL_OFF && !e.evidence.screenshots && !e.evidence.keepMatching;
  }

  lemma ModesLeavePause(p: Policy, items: seq<Spec>)
    ensures EnforceModes(Fold(p, items)).pause == Fold(p, items).pause
    ensures EnforceModes(Fold(p, items)).browser == Fold(p, items).browser
  {
  }

  /** Every rule that ends up changed has a granted accommodation that changes it by itself. */
  lemma EveryChangeIsCaused(p: Policy, items: seq<Spec>, r: Rule)
    requires Resolved(p) && forall i :: 0 <= i < |items| ==> ValidSpec(items[i])
    requires Value(Apply(p, items), r) != Value(p, r)
    ensures Caused(p, items, r)
  {
    if Value(Fold(p, items), r) != Value(p, r) { FoldCause(p, items, r); } else { ModeCause(p, items, r); }
  }

  /* ---------------------------------------------------------------- the listed prefixes */

  lemma NotPrefix(prefix: string, path: string, i: nat)
    requires i < |prefix| && i < |path| && prefix[i] != path[i]
    ensures !(prefix <= path)
  {
  }

  lemma SamePrefix(head: string, a: string, b: string)
    ensures (head + a <= head + b) <==> a <= b
  {
    assert (head + a)[|head|..] == a && (head + b)[|head|..] == b;
    if head + a <= head + b {
      assert (head + b)[..|head + a|] == head + a;
      assert b[..|a|] == (head + b)[|head|..|head + a|] == a;
    }
  }

  /** Paths of the settings in a section: the section, a dot and the key. */
  lemma InSection(section: string, key: string)
    requires section != "" && key != ""
    ensures PathOf("", [section, key]) == section + "." + key && section + "." <= PathOf("", [section, key])
  {
    TwoKeys(section, key);
  }

  lemma PauseKey(key: string)
    requires key != ""
    ensures KindsForPath(PathOf("", ["pause", key])) == [RestBreaksKind]
  {
    InSection("pause", key);
    assert "pause." == "pause" + ".";
  }

  lemma NotPause(path: string)
    requires path != "" && path[0] != 'p'
    ensures !("pause." <= path)
  {
    NotPrefix("pause.", path, 0);
  }

  lemma IdentityKey(key: string)
    requires key != ""
    ensures KindsForPath(PathOf("", ["identity", key]))
      == if "liveness" <= key then [NoLivenessKind, StaffKind, NoCameraKind] else [StaffKind, NoCameraKind]
  {
    InSection("identity", key);
    assert "identity." == "identity" + ".";
    NotPause(PathOf("", ["identity", key]));
    assert "identity.liveness" == "identity." + "liveness";
    SamePrefix("identity.", "liveness", key);
  }

  lemma NotIdentity(path: string)
    requires path != "" && path[0] != 'i'
    ensures !("identity." <= path) && !("identity.liveness" <= path) && !("identity.idPhotoComparison" <= path)
  {
    NotPrefix("identity.", path, 0);
    NotPrefix("identity.liveness", path, 0);
    NotPrefix("identity.idPhotoComparison", path, 0);
  }

  lemma CameraKey(key: string)
    requires key != ""
    ensures KindsForPath(PathOf("", ["camera", key])) == [NoCameraKind]
  {
    InSection("camera", key);
    assert "camera." == "camera" + ".";
    NotPause(PathOf("", ["camera", key]));
    NotIdentity(PathOf("", ["camera", key]));
  }

  lemma BrowserKey(key: string)
    requires key != ""
    ensures KindsForPath(PathOf("", ["browser", key])) == [AssistiveKind]
  {
    var path := PathOf("", ["browser", key]);
    InSection("browser", key);
    assert "browser." == "browser" + ".";
    NotPause(path);
    NotIdentity(path);
    NotPrefix("camera.", path, 0);
  }

  lemma NotCameraOrBrowser(path: string)
    requires path != "" && path[0] != 'c' && path[0] != 'b'
    ensures !("camera." <= path) && !("browser." <= path)
  {
    NotPrefix("camera.", path, 0);
    NotPrefix("browser.", path, 0);
  }

  lemma EvidenceKey(key: string)
    requires key != ""
    ensures KindsForPath(PathOf("", ["evidence", key])) == [NoCameraKind]
  {
    var path := PathOf("", ["evidence", key]);
    InSection("evidence", key);
    assert "evidence." == "evidence" + ".";
    NotPause(path);
    NotIdentity(path);
    NotCameraOrBrowser(path);
    NotPrefix("detection.enabled.", path, 0);
    NotPrefix("detection.enabled.multiplePeople", path, 0);
  }

  lemma DetectorKey(key: string)
    requires key != ""
    ensures KindsForPath(PathOf("", ["detection", "enabled", key]))
      == if "multiplePeople" <= key then [SupportPersonKind, ExemptionsKind, NoCameraKind]
        else [ExemptionsKind, NoCameraKind]
  {
    var path := PathOf("", ["detection", "enabled", key]);
    ThreeKeys("detection", "enabled", key);
    DetectorPrefix();
    NotPause(path);
    NotIdentity(path);
    NotCameraOrBrowser(path);
    SamePrefix("detection.enabled.", "multiplePeople", key);
  }

  lemma DetectorPrefix()
    ensures "detection" + "." + "enabled" + "." == "detection.enabled."
    ensures "detection.enabled." + "multiplePeople" == "detection.enabled.multiplePeople"
  {
  }

  predicate AboutDetector(r: Rule) {
    r.AbsenceRule? || r.MultiplePeopleRule? || r.LookingAwayRule? || r.MovementRule? || r.ObstructionRule?
    || r.ObjectsRule? || r.CameraIntegrityRule?
  }

  lemma DetectorKeys(r: Rule)
    requires AboutDetector(r)
    ensures var key := Keys(r)[2]; key != "" && (("multiplePeople" <= key) <==> r.MultiplePeopleRule?)
  {
    var key := Keys(r)[2];
    if r.MovementRule? {
      NotPrefix("multiplePeople", key, 1);
    } else if !r.MultiplePeopleRule? {
      NotPrefix("multiplePeople", key, 0);
    }
  }

  lemma IdentityKeysOf(r: Rule)
    requires AboutIdentity(r) && !r.CameraRule?
    ensures var key := Keys(r)[1]; key != "" && (("liveness" <= key) <==> r.LivenessRule?)
  {
    if !r.LivenessRule? { NotPrefix("liveness", Keys(r)[1], 0); }
  }

  /** The first listed prefix of a rule's path, rule by rule. */
  lemma PathIsListed(r: Rule)
    ensures KindsForPath(Path(r)) == Listed(r)
  {
    var keys := Keys(r);
    if AboutDetector(r) {
      DetectorKeys(r);
      DetectorKey(keys[2]);
      assert keys == ["detection", "enabled", keys[2]];
    } else if r.CameraRule? {
      CameraKey(keys[1]);
      assert keys == ["camera", keys[1]];
    } else if AboutIdentity(r) {
      IdentityKeysOf(r);
      IdentityKey(keys[1]);
      assert keys == ["identity", keys[1]];
    } else if AboutPause(r) {
      PauseKey(keys[1]);
      assert keys == ["pause", keys[1]];
    } else if r.ScreenshotsRule? || r.KeepMatchingRule? {
      EvidenceKey(keys[1]);
      assert keys == ["evidence", keys[1]];
    } else {
      BrowserKey(keys[1]);
      assert keys == ["browser", keys[1]];
    }
  }

  /* ---------------------------------------------------------------- from a listed exception to its rule */

  /** The entry the i-th setting is in, in two lists of entries with the same settings. */
  lemma {:induction false} TwinLocate(a: seq<Entry>, b: seq<Entry>, i: nat) returns (p: nat, m: nat)
    requires |a| == |b|
    requires forall n :: 0 <= n < |a| ==> a[n].key == b[n].key && KeyLists(a[n].tree) == KeyLists(b[n].tree)
    requires i < |EntryKeyLists(a)| == |EntryKeyLists(b)|
    ensures p < |a| && m < |KeyLists(a[p].tree)|
    ensures EntryKeyLists(a)[i] == [a[p].key] + KeyLists(a[p].tree)[m]
    ensures EntryValues(a)[i] == Values(a[p].tree)[m] && EntryValues(b)[i] == Values(b[p].tree)[m]
    decreases a
  {
    var n := |KeyLists(a[0].tree)|;
    if i < n {
      p, m := 0, i;
    } else {
      p, m := TwinLocate(a[1..], b[1..], i - n);
      p := p + 1;
    }
  }

  /** The same in two sections that hold leaves only. */
  lemma TwinLeaf(a: seq<Entry>, b: seq<Entry>, i: nat) returns (p: nat)
    requires |a| == |b|
    requires forall n :: 0 <= n < |a| ==> a[n].key == b[n].key && a[n].tree.Leaf? && b[n].tree.Leaf?
    requires i < |EntryKeyLists(a)| == |EntryKeyLists(b)|
    ensures p < |a| && EntryKeyLists(a)[i] == [a[p].key]
    ensures EntryValues(a)[i] == a[p].tree.value && EntryValues(b)[i] == b[p].tree.value
  {
    var m;
    p, m := TwinLocate(a, b, i);
    assert KeyLists(a[p].tree) == [[]];
  }

  /** Only what accommodations can change differs. */
  predicate SameElsewhere(p: Policy, q: Policy) {
    && q.thresholds == p.thresholds && q.fixed == p.fixed
    && q.identity == p.identity.(verification := q.identity.verification, staffReverify := q.identity.staffReverify,
                                 liveness := q.identity.liveness, idPhoto := q.identity.idPhoto)
    && q.browser.flagTabHidden == p.browser.flagTabHidden && q.browser.windowBlurMinSec == p.browser.windowBlurMinSec
    && q.evidence.maxScreenshots == p.evidence.maxScreenshots && q.evidence.periodicSec == p.evidence.periodicSec
  }

  lemma StepSameElsewhere(p: Policy, mid: Policy, a: Spec)
    requires SameElsewhere(p, mid)
    ensures SameElsewhere(p, Step(mid, a))
  {
  }

  lemma EnforcedSameElsewhere(p: Policy, mid: Policy)
    requires SameElsewhere(p, mid)
    ensures SameElsewhere(p, EnforceModes(mid))
  {
  }

  lemma {:induction false} FoldSameElsewhere(p: Policy, items: seq<Spec>)
    ensures SameElsewhere(p, Fold(p, items))
    decreases |items|
  {
    if items != [] {
      FoldSameElsewhere(p, items[..|items| - 1]);
      StepSameElsewhere(p, Fold(p, items[..|items| - 1]), items[|items| - 1]);
    }
  }

  lemma AppliedSameElsewhere(p: Policy, items: seq<Spec>)
    ensures SameElsewhere(p, Apply(p, items))
  {
    FoldSameElsewhere(p, items);
    EnforcedSameElsewhere(p, Fold(p, items));
  }

  ghost predicate IsRule(p: Policy, q: Policy, keys: seq<string>, from: Val, to: Val) {
    exists r :: keys == Keys(r) && from == Value(p, r) && to == Value(q, r)
  }

  lemma IdentityPlace(p: Policy, q: Policy, n: nat)
    requires SameElsewhere(p, q)
    requires var a, b := IdentityEntries(p.identity), IdentityEntries(q.identity);
      n < |a| && a[n].tree != b[n].tree
    ensures var a, b := IdentityEntries(p.identity), IdentityEntries(q.identity);
      && a[n].key == b[n].key && a[n].tree.Leaf? && b[n].tree.Leaf?
      && IsRule(p, q, ["identity"] + [a[n].key], a[n].tree.value, b[n].tree.value)
  {
    var a, b := IdentityEntries(p.identity), IdentityEntries(q.identity);
    if n == 0 {
      assert Keys(VerificationRule) == ["identity"] + [a[0].key] && a[0].tree == TreeOf(p, VerificationRule)
        && b[0].tree == TreeOf(q, VerificationRule);
    }
    if n == 1 {
      assert Keys(ReverifyRule) == ["identity"] + [a[1].key] && a[1].tree == TreeOf(p, ReverifyRule)
        && b[1].tree == TreeOf(q, ReverifyRule);
    }
    if n == 2 {
      assert Keys(LivenessRule) == ["identity"] + [a[2].key] && a[2].tree == TreeOf(p, LivenessRule)
        && b[2].tree == TreeOf(q, LivenessRule);
    }
    if n == 4 {
      assert Keys(IdPhotoRule) == ["identity"] + [a[4].key] && a[4].tree == TreeOf(p, IdPhotoRule)
        && b[4].tree == TreeOf(q, IdPhotoRule);
    }
  }

  lemma IdentityTwins(p: Policy, q: Policy)
    ensures var a, b := IdentityEntries(p.identity), IdentityEntries(q.identity);
      |a| == |b| && forall n :: 0 <= n < |a| ==> a[n].key == b[n].key && a[n].tree.Leaf? && b[n].tree.Leaf?
  {
    IdentityTwinsUpTo(p, q, 0, 7);
    IdentityTwinsUpTo(p, q, 7, 13);
  }

  lemma IdentityTwinsUpTo(p: Policy, q: Policy, low: nat, high: nat)
    requires (low == 0 && high == 7) || (low == 7 && high == 13)
    ensures var a, b := IdentityEntries(p.identity), IdentityEntries(q.identity);
      |a| == |b| == 13 && forall n :: low <= n < high ==> a[n].key == b[n].key && a[n].tree.Leaf? && b[n].tree.Leaf?
  {
    var a, b := IdentityEntries(p.identity), IdentityEntries(q.identity);
    forall n | low <= n < high ensures a[n].key == b[n].key && a[n].tree.Leaf? && b[n].tree.Leaf? {
    }
  }

  lemma IdentityDiffers(p: Policy, q: Policy, i: nat)
    requires SameElsewhere(p, q)
    requires var a, b := IdentityEntries(p.identity), IdentityEntries(q.identity);
      i < |EntryKeyLists(a)| == |EntryKeyLists(b)| && EntryValues(a)[i] != EntryValues(b)[i]
    ensures var a, b := IdentityEntries(p.identity), IdentityEntries(q.identity);
      IsRule(p, q, ["identity"] + EntryKeyLists(a)[i], EntryValues(a)[i], EntryValues(b)[i])
  {
    IdentityTwins(p, q);
    var n := TwinLeaf(IdentityEntries(p.identity), IdentityEntries(q.identity), i);
    IdentityPlace(p, q, n);
  }

  lemma PausePlace(p: Policy, q: Policy, n: nat)
    requires var a, b := PauseEntries(p.pause), PauseEntries(q.pause);
      n < |a|
    ensures var a, b := PauseEntries(p.pause), PauseEntries(q.pause);
      && a[n].key == b[n].key && a[n].tree.Leaf? && b[n].tree.Leaf?
      && IsRule(p, q, ["pause"] + [a[n].key], a[n].tree.value, b[n].tree.value)
  {
    var a, b := PauseEntries(p.pause), PauseEntries(q.pause);
    if n == 0 {
      assert Keys(AllowedRule) == ["pause"] + [a[0].key] && a[0].tree == TreeOf(p, AllowedRule)
        && b[0].tree == TreeOf(q, AllowedRule);
    }
    if n == 1 {
      assert Keys(ReasonRule) == ["pause"] + [a[1].key] && a[1].tree == TreeOf(p, ReasonRule)
        && b[1].tree == TreeOf(q, ReasonRule);
    }
    if n == 2 {
      assert Keys(ApprovalRule) == ["pause"] + [a[2].key] && a[2].tree == TreeOf(p, ApprovalRule)
        && b[2].tree == TreeOf(q, ApprovalRule);
    }
    if n == 3 {
      assert Keys(TimerRule) == ["pause"] + [a[3].key] && a[3].tree == TreeOf(p, TimerRule)
        && b[3].tree == TreeOf(q, TimerRule);
    }
    if n == 4 {
      assert Keys(MaxPausesRule) == ["pause"] + [a[4].key] && a[4].tree == TreeOf(p, MaxPausesRule)
        && b[4].tree == TreeOf(q, MaxPausesRule);
    }
    if n == 5 {
      assert Keys(MaxPauseLengthRule) == ["pause"] + [a[5].key] && a[5].tree == TreeOf(p, MaxPauseLengthRule)
        && b[5].tree == TreeOf(q, MaxPauseLengthRule);
    }
  }

  lemma PauseTwins(p: Policy, q: Policy)
    ensures var a, b := PauseEntries(p.pause), PauseEntries(q.pause);
      |a| == |b| && forall n :: 0 <= n < |a| ==> a[n].key == b[n].key && a[n].tree.Leaf? && b[n].tree.Leaf?
  {
    forall n | 0 <= n < 6 ensures PauseEntries(p.pause)[n].key == PauseEntries(q.pause)[n].key
      && PauseEntries(p.pause)[n].tree.Leaf? && PauseEntries(q.pause)[n].tree.Leaf? { }
  }

  lemma PauseDiffers(p: Policy, q: Policy, i: nat)
    requires var a, b := PauseEntries(p.pause), PauseEntries(q.pause);
      i < |EntryKeyLists(a)| == |EntryKeyLists(b)|
    ensures var a, b := PauseEntries(p.pause), PauseEntries(q.pause);
      IsRule(p, q, ["pause"] + EntryKeyLists(a)[i], EntryValues(a)[i], EntryValues(b)[i])
  {
    PauseTwins(p, q);
    var n := TwinLeaf(PauseEntries(p.pause), PauseEntries(q.pause), i);
    PausePlace(p, q, n);
  }

  lemma CameraDiffers(p: Policy, q: Policy, i: nat)
    requires var a, b := [Entry("enabled", Flag(p.cameraEnabled))], [Entry("enabled", Flag(q.cameraEnabled))];
      i < |EntryKeyLists(a)| == |EntryKeyLists(b)|
    ensures var a, b := [Entry("enabled", Flag(p.cameraEnabled))], [Entry("enabled", Flag(q.cameraEnabled))];
      IsRule(p, q, ["camera"] + EntryKeyLists(a)[i], EntryValues(a)[i], EntryValues(b)[i])
  {
    var a, b := [Entry("enabled", Flag(p.cameraEnabled))], [Entry("enabled", Flag(q.cameraEnabled))];
    var n := TwinLeaf(a, b, i);
    assert Keys(CameraRule) == ["camera"] + [a[n].key];
    assert a[n].tree == TreeOf(p, CameraRule) && b[n].tree == TreeOf(q, CameraRule);
  }

  lemma BrowserPlace(p: Policy, q: Policy, n: nat)
    requires SameElsewhere(p, q)
    requires var a, b := BrowserEntries(p.browser), BrowserEntries(q.browser);
      n < |a| && a[n].tree != b[n].tree
    ensures var a, b := BrowserEntries(p.browser), BrowserEntries(q.browser);
      && a[n].key == b[n].key && a[n].tree.Leaf? && b[n].tree.Leaf?
      && IsRule(p, q, ["browser"] + [a[n].key], a[n].tree.value, b[n].tree.value)
  {
    var a, b := BrowserEntries(p.browser), BrowserEntries(q.browser);
    if n == 0 {
      assert Keys(FullscreenRule) == ["browser"] + [a[0].key] && a[0].tree == TreeOf(p, FullscreenRule)
        && b[0].tree == TreeOf(q, FullscreenRule);
    }
    if n == 1 {
      assert Keys(SingleDisplayRule) == ["browser"] + [a[1].key] && a[1].tree == TreeOf(p, SingleDisplayRule)
        && b[1].tree == TreeOf(q, SingleDisplayRule);
    }
    if n == 2 {
      assert Keys(ClipboardRule) == ["browser"] + [a[2].key] && a[2].tree == TreeOf(p, ClipboardRule)
        && b[2].tree == TreeOf(q, ClipboardRule);
    }
    if n == 4 {
      assert Keys(WindowBlurRule) == ["browser"] + [a[4].key] && a[4].tree == TreeOf(p, WindowBlurRule)
        && b[4].tree == TreeOf(q, WindowBlurRule);
    }
  }

  lemma BrowserTwins(p: Policy, q: Policy)
    ensures var a, b := BrowserEntries(p.browser), BrowserEntries(q.browser);
      |a| == |b| && forall n :: 0 <= n < |a| ==> a[n].key == b[n].key && a[n].tree.Leaf? && b[n].tree.Leaf?
  {
    forall n | 0 <= n < 6 ensures BrowserEntries(p.browser)[n].key == BrowserEntries(q.browser)[n].key
      && BrowserEntries(p.browser)[n].tree.Leaf? && BrowserEntries(q.browser)[n].tree.Leaf? { }
  }

  lemma BrowserDiffers(p: Policy, q: Policy, i: nat)
    requires SameElsewhere(p, q)
    requires var a, b := BrowserEntries(p.browser), BrowserEntries(q.browser);
      i < |EntryKeyLists(a)| == |EntryKeyLists(b)| && EntryValues(a)[i] != EntryValues(b)[i]
    ensures var a, b := BrowserEntries(p.browser), BrowserEntries(q.browser);
      IsRule(p, q, ["browser"] + EntryKeyLists(a)[i], EntryValues(a)[i], EntryValues(b)[i])
  {
    BrowserTwins(p, q);
    var n := TwinLeaf(BrowserEntries(p.browser), BrowserEntries(q.browser), i);
    BrowserPlace(p, q, n);
  }

  lemma EvidencePlace(p: Policy, q: Policy, n: nat)
    requires SameElsewhere(p, q)
    requires var a, b := EvidenceEntries(p.evidence), EvidenceEntries(q.evidence);
      n < |a| && a[n].tree != b[n].tree
    ensures var a, b := EvidenceEntries(p.evidence), EvidenceEntries(q.evidence);
      && a[n].key == b[n].key && a[n].tree.Leaf? && b[n].tree.Leaf?
      && IsRule(p, q, ["evidence"] + [a[n].key], a[n].tree.value, b[n].tree.value)
  {
    var a, b := EvidenceEntries(p.evidence), EvidenceEntries(q.evidence);
    if n == 0 {
      assert Keys(ScreenshotsRule) == ["evidence"] + [a[0].key] && a[0].tree == TreeOf(p, ScreenshotsRule)
        && b[0].tree == TreeOf(q, ScreenshotsRule);
    }
    if n == 3 {
      assert Keys(KeepMatchingRule) == ["evidence"] + [a[3].key] && a[3].tree == TreeOf(p, KeepMatchingRule)
        && b[3].tree == TreeOf(q, KeepMatchingRule);
    }
  }

  lemma EvidenceTwins(p: Policy, q: Policy)
    ensures var a, b := EvidenceEntries(p.evidence), EvidenceEntries(q.evidence);
      |a| == |b| && forall n :: 0 <= n < |a| ==> a[n].key == b[n].key && a[n].tree.Leaf? && b[n].tree.Leaf?
  {
    forall n | 0 <= n < 4 ensures EvidenceEntries(p.evidence)[n].key == EvidenceEntries(q.evidence)[n].key
      && EvidenceEntries(p.evidence)[n].tree.Leaf? && EvidenceEntries(q.evidence)[n].tree.Leaf? { }
  }

  lemma EvidenceDiffers(p: Policy, q: Policy, i: nat)
    requires SameElsewhere(p, q)
    requires var a, b := EvidenceEntries(p.evidence), EvidenceEntries(q.evidence);
      i < |EntryKeyLists(a)| == |EntryKeyLists(b)| && EntryValues(a)[i] != EntryValues(b)[i]
    ensures var a, b := EvidenceEntries(p.evidence), EvidenceEntries(q.evidence);
      IsRule(p, q, ["evidence"] + EntryKeyLists(a)[i], EntryValues(a)[i], EntryValues(b)[i])
  {
    EvidenceTwins(p, q);
    var n := TwinLeaf(EvidenceEntries(p.evidence), EvidenceEntries(q.evidence), i);
    EvidencePlace(p, q, n);
  }

  predicate DetectorAt(p: Policy, q: Policy, n: nat, r: Rule) {
    var a, b := DetectorEntries(p.detectors), DetectorEntries(q.detectors);
    && n < |a| == |b| && Keys(r) == ["detection", "enabled"] + [a[n].key] && a[n].key == b[n].key
    && a[n].tree == TreeOf(p, r) && b[n].tree == TreeOf(q, r)
  }

  lemma FirstDetectors(p: Policy, q: Policy)
    ensures DetectorAt(p, q, 0, AbsenceRule) && DetectorAt(p, q, 1, MultiplePeopleRule)
  {
  }

  lemma MiddleDetectors(p: Policy, q: Policy)
    ensures DetectorAt(p, q, 2, LookingAwayRule) && DetectorAt(p, q, 3, MovementRule)
  {
  }

  lemma LastDetectors(p: Policy, q: Policy)
    ensures DetectorAt(p, q, 4, ObstructionRule) && DetectorAt(p, q, 5, ObjectsRule)
  {
  }

  lemma LastDetector(p: Policy, q: Policy)
    ensures DetectorAt(p, q, 6, CameraIntegrityRule)
  {
  }

  lemma DetectorPlace(p: Policy, q: Policy, n: nat)
    requires n < |DetectorEntries(p.detectors)|
    ensures var a, b := DetectorEntries(p.detectors), DetectorEntries(q.detectors);
      && a[n].key == b[n].key && a[n].tree.Leaf? && b[n].tree.Leaf?
      && IsRule(p, q, ["detection", "enabled"] + [a[n].key], a[n].tree.value, b[n].tree.value)
  {
    FirstDetectors(p, q);
    MiddleDetectors(p, q);
    LastDetectors(p, q);
    LastDetector(p, q);
    var rules := [AbsenceRule, MultiplePeopleRule, LookingAwayRule, MovementRule, ObstructionRule, ObjectsRule,
      CameraIntegrityRule];
    assert DetectorAt(p, q, n, rules[n]);
  }

  lemma DetectorTwins(p: Policy, q: Policy)
    ensures var a, b := DetectorEntries(p.detectors), DetectorEntries(q.detectors);
      |a| == |b| && forall n :: 0 <= n < |a| ==> a[n].key == b[n].key && a[n].tree.Leaf? && b[n].tree.Leaf?
  {
    forall n | 0 <= n < 7 ensures DetectorEntries(p.detectors)[n].key == DetectorEntries(q.detectors)[n].key
      && DetectorEntries(p.detectors)[n].tree.Leaf? && DetectorEntries(q.detectors)[n].tree.Leaf? { }
  }

  lemma DetectorDiffers(p: Policy, q: Policy, i: nat)
    requires var a, b := DetectorEntries(p.detectors), DetectorEntries(q.detectors);
      i < |EntryKeyLists(a)| == |EntryKeyLists(b)|
    ensures var a, b := DetectorEntries(p.detectors), DetectorEntries(q.detectors);
      IsRule(p, q, ["detection", "enabled"] + EntryKeyLists(a)[i], EntryValues(a)[i], EntryValues(b)[i])
  {
    DetectorTwins(p, q);
    var n := TwinLeaf(DetectorEntries(p.detectors), DetectorEntries(q.detectors), i);
    DetectorPlace(p, q, n);
  }

  lemma DetectionTwins(p: Policy, q: Policy)
    requires SameElsewhere(p, q)
    ensures var a, b := DetectionEntries(p), DetectionEntries(q);
      && |a| == |b| && (forall n :: 1 <= n < |a| ==> a[n] == b[n])
      && forall n :: 0 <= n < |a| ==> a[n].key == b[n].key && KeyLists(a[n].tree) == KeyLists(b[n].tree)
  {
    var a, b := DetectionEntries(p), DetectionEntries(q);
    DetectionSameShape(p, q);
    forall n | 1 <= n < |a| ensures a[n] == b[n] {
      assert a[n] == p.thresholds[n - 1] && b[n] == p.thresholds[n - 1];
    }
    SameShapeKeys(a[0].tree, b[0].tree);
  }

  lemma DetectionDiffers(p: Policy, q: Policy, i: nat)
    requires SameElsewhere(p, q)
    requires var a, b := DetectionEntries(p), DetectionEntries(q);
      i < |EntryKeyLists(a)| == |EntryKeyLists(b)| && EntryValues(a)[i] != EntryValues(b)[i]
    ensures var a, b := DetectionEntries(p), DetectionEntries(q);
      IsRule(p, q, ["detection"] + EntryKeyLists(a)[i], EntryValues(a)[i], EntryValues(b)[i])
  {
    var a, b := DetectionEntries(p), DetectionEntries(q);
    DetectionTwins(p, q);
    var n, m := TwinLocate(a, b, i);
    if n == 0 {
      DetectorDiffers(p, q, m);
      UnderDetection(a[0].key, EntryKeyLists(DetectorEntries(p.detectors))[m]);
    }
  }

  lemma UnderDetection(key: string, rest: seq<string>)
    requires key == "enabled"
    ensures ["detection"] + ([key] + rest) == ["detection", "enabled"] + rest
  {
  }

  /** A setting that differs between a policy and the policy accommodations made of it is one of the rules. */
  lemma DifferenceIsRule(p: Policy, q: Policy, i: nat)
    requires SameElsewhere(p, q)
    requires i < |KeyLists(ToTree(p))| == |KeyLists(ToTree(q))| && Values(ToTree(p))[i] != Values(ToTree(q))[i]
    ensures IsRule(p, q, KeyLists(ToTree(p))[i], Values(ToTree(p))[i], Values(ToTree(q))[i])
  {
    TwinSections(p, q);
    var n, m := TwinLocate(ToTree(p).entries, ToTree(q).entries, i);
    SectionDiffers(p, q, n, m);
  }

  lemma TwinSections(p: Policy, q: Policy)
    requires SameElsewhere(p, q)
    ensures var a, b := ToTree(p).entries, ToTree(q).entries;
      |a| == |b| && forall n :: 0 <= n < |a| ==> a[n].key == b[n].key && KeyLists(a[n].tree) == KeyLists(b[n].tree)
  {
    var a, b := ToTree(p).entries, ToTree(q).entries;
    StoredSameShape(p, q);
    forall n | 0 <= n < |a| ensures a[n].key == b[n].key && KeyLists(a[n].tree) == KeyLists(b[n].tree) {
      SameShapeKeys(a[n].tree, b[n].tree);
    }
  }

  lemma FixedSections(p: Policy, q: Policy)
    requires SameElsewhere(p, q) && |ToTree(p).entries| == |ToTree(q).entries|
    ensures forall n :: 6 <= n < |ToTree(p).entries| ==> ToTree(p).entries[n] == ToTree(q).entries[n]
  {
    var a, b := ToTree(p).entries, ToTree(q).entries;
    forall n | 6 <= n < |a| ensures a[n] == b[n] {
      assert a[n] == p.fixed[n - 6] && b[n] == p.fixed[n - 6];
    }
  }

  lemma SectionDiffers(p: Policy, q: Policy, n: nat, m: nat)
    requires SameElsewhere(p, q)
    requires var a, b := ToTree(p).entries, ToTree(q).entries;
      n < |a| == |b| && m < |KeyLists(a[n].tree)| == |KeyLists(b[n].tree)|
        && Values(a[n].tree)[m] != Values(b[n].tree)[m]
    ensures var a, b := ToTree(p).entries, ToTree(q).entries;
      IsRule(p, q, [a[n].key] + KeyLists(a[n].tree)[m], Values(a[n].tree)[m], Values(b[n].tree)[m])
  {
    var a, b := ToTree(p).entries, ToTree(q).entries;
    FixedSections(p, q);
    if n < 3 {
      FirstSectionDiffers(p, q, n, m);
    } else if n < 6 {
      LastSectionDiffers(p, q, n, m);
    }
  }

  lemma FirstSectionDiffers(p: Policy, q: Policy, n: nat, m: nat)
    requires SameElsewhere(p, q) && n < 3
    requires var a, b := ToTree(p).entries, ToTree(q).entries;
      m < |KeyLists(a[n].tree)| == |KeyLists(b[n].tree)| && Values(a[n].tree)[m] != Values(b[n].tree)[m]
    ensures var a, b := ToTree(p).entries, ToTree(q).entries;
      IsRule(p, q, [a[n].key] + KeyLists(a[n].tree)[m], Values(a[n].tree)[m], Values(b[n].tree)[m])
  {
    assert ToTree(p).entries[n] == Sections(p)[n] && ToTree(q).entries[n] == Sections(q)[n];
    if n == 0 { IdentityDiffers(p, q, m); }
    if n == 1 { CameraDiffers(p, q, m); }
    if n == 2 { PauseDiffers(p, q, m); }
  }

  lemma LastSectionDiffers(p: Policy, q: Policy, n: nat, m: nat)
    requires SameElsewhere(p, q) && 3 <= n < 6
    requires var a, b := ToTree(p).entries, ToTree(q).entries;
      m < |KeyLists(a[n].tree)| == |KeyLists(b[n].tree)| && Values(a[n].tree)[m] != Values(b[n].tree)[m]
    ensures var a, b := ToTree(p).entries, ToTree(q).entries;
      IsRule(p, q, [a[n].key] + KeyLists(a[n].tree)[m], Values(a[n].tree)[m], Values(b[n].tree)[m])
  {
    assert ToTree(p).entries[n] == Sections(p)[n] && ToTree(q).entries[n] == Sections(q)[n];
    if n == 3 { BrowserDiffers(p, q, m); }
    if n == 4 { DetectionDiffers(p, q, m); }
    if n == 5 { EvidenceDiffers(p, q, m); }
  }

  lemma {:induction false} ListedDiffers(before: seq<PolicyTree.Setting>, applied: seq<PolicyTree.Setting>,
    e: Exception)
    requires e in Differences(before, applied)
    ensures exists i :: 0 <= i < |applied| && e == Exception(applied[i].path, Lookup(before, applied[i].path),
      applied[i].value)
                        && e.from != e.to
    decreases |applied|
  {
    var s := applied[0];
    if e in Differences(before, applied[1..]) {
      ListedDiffers(before, applied[1..], e);
      var i :| 0 <= i < |applied[1..]|
        && e == Exception(applied[1..][i].path, Lookup(before, applied[1..][i].path), applied[1..][i].value)
          && e.from != e.to;
      assert applied[i + 1] == applied[1..][i];
    }
  }

  /* ---------------------------------------------------------------- which listed kinds change a rule */

  /** The rule is where an accommodation of some listed kind would move it from; pauses apart. */
  predicate Strict(p: Policy, r: Rule)
    requires !AboutPause(r)
  {
    match r
    case VerificationRule => p.identity.verification == Automatic
    case ReverifyRule => !p.identity.staffReverify
    case LivenessRule => p.identity.liveness == Active
    case IdPhotoRule => p.identity.idPhoto != NoPhoto
    case CameraRule => p.cameraEnabled
    case FullscreenRule => p.browser.requireFullscreen
    case SingleDisplayRule => p.browser.requireSingleDisplay
    case ClipboardRule => p.browser.blockClipboard
    case WindowBlurRule => p.browser.flagWindowBlur
    case AbsenceRule => p.detectors.absence
    case MultiplePeopleRule => p.detectors.multiplePeople
    case LookingAwayRule => p.detectors.lookingAway
    case MovementRule => p.detectors.movement
    case ObstructionRule => p.detectors.obstruction
    case ObjectsRule => p.detectors.objects
    case CameraIntegrityRule => p.detectors.cameraIntegrity
    case ScreenshotsRule => p.evidence.screenshots
    case KeepMatchingRule => p.evidence.keepMatching
  }

  /** An exemption that lists the detector of the rule; camera problems cannot be exempted. */
  predicate Exempts(a: Spec, r: Rule) {
    a.DetectionExemptions? &&
    match r
    case AbsenceRule => Absence in a.off
    case MultiplePeopleRule => MultiplePeople in a.off
    case LookingAwayRule => LookingAway in a.off
    case MovementRule => Movement in a.off
    case ObstructionRule => Obstruction in a.off
    case ObjectsRule => Objects in a.off
    case _ => false
  }

  predicate Reverifies(a: Spec) {
    (a.StaffIdentityVerification? || a.NoCamera?) && a.reverifyOnContinue
  }

  predicate ChangesAlone(p: Policy, a: Spec, r: Rule) {
    Value(Apply(p, [a]), r) != Value(p, r)
  }

  lemma OnlyStrictChanges(p: Policy, a: Spec, r: Rule)
    requires Resolved(p) && !AboutPause(r) && ChangesAlone(p, a, r)
    ensures Strict(p, r)
  {
    ApplyOne(p, a);
    if AboutIdentity(r) {
      OnlyStrictIdentityChanges(p, a, r);
    } else if AboutDetector(r) {
      OnlyActiveDetectorsChange(p, a, r);
    } else {
      OnlyStrictRestChanges(p, a, r);
    }
  }

  lemma OnlyStrictIdentityChanges(p: Policy, a: Spec, r: Rule)
    requires Resolved(p) && AboutIdentity(r) && Value(EnforceModes(Step(p, a)), r) != Value(p, r)
    ensures Strict(p, r)
  {
  }

  predicate DetectorsFall(d: Detectors, e: Detectors) {
    && (e.absence ==> d.absence) && (e.multiplePeople ==> d.multiplePeople) && (e.lookingAway ==> d.lookingAway)
    && (e.movement ==> d.movement) && (e.obstruction ==> d.obstruction) && (e.objects ==> d.objects)
    && (e.cameraIntegrity ==> d.cameraIntegrity)
  }

  lemma StepsTurnDetectorsOff(p: Policy, a: Spec)
    ensures DetectorsFall(p.detectors, EnforceModes(Step(p, a)).detectors)
  {
    StepTurnsDetectorsOff(p, a);
    ModesTurnDetectorsOff(Step(p, a));
  }

  lemma StepTurnsDetectorsOff(p: Policy, a: Spec)
    ensures DetectorsFall(p.detectors, Step(p, a).detectors)
  {
    var d, e := p.detectors, Step(p, a).detectors;
    assert e == if a.DetectionExemptions? then AllOff(d, a.off)
                else if a.SupportPerson? then d.(multiplePeople := false) else d;
  }

  lemma ModesTurnDetectorsOff(p: Policy)
    ensures DetectorsFall(p.detectors, EnforceModes(p).detectors)
  {
    assert EnforceModes(p).detectors == p.detectors || EnforceModes(p).detectors == ALL_OFF;
  }

  lemma InactiveStays(p: Policy, q: Policy, r: Rule)
    requires AboutDetector(r) && DetectorsFall(p.detectors, q.detectors) && !Strict(p, r)
    ensures Value(q, r) == Value(p, r)
  {
  }

  lemma OnlyActiveDetectorsChange(p: Policy, a: Spec, r: Rule)
    requires AboutDetector(r) && Value(EnforceModes(Step(p, a)), r) != Value(p, r)
    ensures Strict(p, r)
  {
    StepsTurnDetectorsOff(p, a);
    if !Strict(p, r) { InactiveStays(p, EnforceModes(Step(p, a)), r); }
  }

  lemma OnlyStrictRestChanges(p: Policy, a: Spec, r: Rule)
    requires Resolved(p) && !AboutPause(r) && !AboutIdentity(r) && !AboutDetector(r)
    requires Value(EnforceModes(Step(p, a)), r) != Value(p, r)
    ensures Strict(p, r)
  {
  }

  /** An accommodation of a listed kind changes a strict rule, unless an exemption or re-verification leaves it out. */
  lemma StrictChangesIff(p: Policy, a: Spec, r: Rule)
    requires Resolved(p) && !AboutPause(r) && Strict(p, r) && KindOf(a) in Listed(r)
    ensures ChangesAlone(p, a, r) <==> ContributesAlone(a, r)
  {
    ApplyOne(p, a);
    if AboutIdentity(r) {
      IdentityChangesIff(p, a, r);
    } else {
      ObservationChangesIff(p, a, r);
    }
  }

  lemma IdentityChangesIff(p: Policy, a: Spec, r: Rule)
    requires Resolved(p) && AboutIdentity(r) && Strict(p, r) && KindOf(a) in Listed(r)
    ensures Value(EnforceModes(Step(p, a)), r) != Value(p, r) <==> (r.ReverifyRule? ==> Reverifies(a))
    ensures !a.DetectionExemptions?
  {
  }

  lemma ObservationChangesIff(p: Policy, a: Spec, r: Rule)
    requires Resolved(p) && !AboutPause(r) && !AboutIdentity(r) && Strict(p, r) && KindOf(a) in Listed(r)
    ensures Value(EnforceModes(Step(p, a)), r) != Value(p, r) <==> (a.DetectionExemptions? ==> Exempts(a, r))
  {
  }

  /** Some granted accommodation of the kind changes the rule by itself. */
  ghost predicate ChangedBy(p: Policy, items: seq<Spec>, r: Rule, k: Kind) {
    exists i :: 0 <= i < |items| && KindOf(items[i]) == k && ChangesAlone(p, items[i], r)
  }

  /** What a named kind has to bring: an exemption the rule's detector, for re-verification a grant that asks for it. */
  ghost predicate Contributes(items: seq<Spec>, r: Rule, k: Kind) {
    || (k != ExemptionsKind && r != ReverifyRule)
    || (k == ExemptionsKind && exists i :: 0 <= i < |items| && Exempts(items[i], r))
    || (r == ReverifyRule && exists i :: 0 <= i < |items| && KindOf(items[i]) == k && Reverifies(items[i]))
  }

  /** Of the kinds listed and present for a changed rule, exactly those that contribute changed it. */
  lemma NamedKindChangedIff(p: Policy, items: seq<Spec>, r: Rule, k: Kind)
    requires Resolved(p) && forall i :: 0 <= i < |items| ==> ValidSpec(items[i])
    requires Value(Apply(p, items), r) != Value(p, r) && k in Listed(r) && IsPresent(items, k)
    ensures ChangedBy(p, items, r, k) <==> Contributes(items, r, k)
  {
    var i := CauseOf(p, items, r);
    if AboutPause(r) {
      PausesHaveOneKind(r, k, items[i]);
      assert ChangedBy(p, items, r, k);
    } else {
      OnlyStrictChanges(p, items[i], r);
      StrictKindChangedIff(p, items, r, k);
    }
  }

  lemma CauseOf(p: Policy, items: seq<Spec>, r: Rule) returns (i: nat)
    requires Resolved(p) && forall i :: 0 <= i < |items| ==> ValidSpec(items[i])
    requires Value(Apply(p, items), r) != Value(p, r)
    ensures i < |items| && KindOf(items[i]) in Listed(r) && ChangesAlone(p, items[i], r)
  {
    EveryChangeIsCaused(p, items, r);
    i :| 0 <= i < |items| && KindOf(items[i]) in Listed(r) && Value(Apply(p, [items[i]]), r) != Value(p, r);
  }

  lemma PausesHaveOneKind(r: Rule, k: Kind, a: Spec)
    requires AboutPause(r) && k in Listed(r) && KindOf(a) in Listed(r)
    ensures KindOf(a) == k && k != ExemptionsKind
  {
  }

  lemma StrictKindChangedIff(p: Policy, items: seq<Spec>, r: Rule, k: Kind)
    requires Resolved(p) && !AboutPause(r) && Strict(p, r) && k in Listed(r) && IsPresent(items, k)
    ensures ChangedBy(p, items, r, k) <==> Contributes(items, r, k)
  {
    forall n | 0 <= n < |items| && KindOf(items[n]) == k
      ensures ChangesAlone(p, items[n], r) <==> ContributesAlone(items[n], r)
    {
      StrictChangesIff(p, items[n], r);
    }
    ContributionsAre(items, r, k);
    if Contributes(items, r, k) {
      var n :| 0 <= n < |items| && KindOf(items[n]) == k && ContributesAlone(items[n], r);
      assert ChangesAlone(p, items[n], r);
    }
  }

  predicate ContributesAlone(a: Spec, r: Rule) {
    if a.DetectionExemptions? then Exempts(a, r) else r.ReverifyRule? ==> Reverifies(a)
  }

  lemma ContributionsAre(items: seq<Spec>, r: Rule, k: Kind)
    requires IsPresent(items, k) && k in Listed(r)
    ensures Contributes(items, r, k) <==>
      exists n :: 0 <= n < |items| && KindOf(items[n]) == k && ContributesAlone(items[n], r)
  {
    var i :| 0 <= i < |items| && KindOf(items[i]) == k;
    assert k != ExemptionsKind && r != ReverifyRule ==> ContributesAlone(items[i], r);
  }

  /** An accommodation that changes a rule by itself is of a kind listed for it. */
  lemma AloneIsListed(p: Policy, a: Spec, r: Rule)
    requires Resolved(p) && ValidSpec(a) && ChangesAlone(p, a, r)
    ensures KindOf(a) in Listed(r)
  {
    EveryChangeIsCaused(p, [a], r);
  }

  /** Every rule at its strictest. */
  const STRICTEST := Policy(
    Identity(Automatic, false, Active, 2, Required, 15, 6, 180, 3, 3, Maximum, HoldForReview, 5), true,
    Pause(false, true, true, Continue, Some(1), Some(60)), Browser(true, true, true, true, true, 2.0),
    Detectors(true, true, true, true, true, true, true), [], Evidence(true, 4, 30.0, true), [])

  /** An accommodation of the kind that leaves nothing out. */
  function Whole(k: Kind): (a: Spec)
    ensures KindOf(a) == k && ValidSpec(a)
  {
    match k
    case ExtraTimeKind => ExtraTime(None, None)
    case RestBreaksKind => RestBreaks(None, None)
    case NoLivenessKind => NoLivenessChallenge
    case AssistiveKind => AssistiveTechnology
    case ExemptionsKind => DetectionExemptions({Absence, LookingAway, Movement, Obstruction, Objects, MultiplePeople})
    case SupportPersonKind => SupportPerson
    case StaffKind => StaffIdentityVerification(true)
    case NoCameraKind => NoCamera(true)
  }

  ghost predicate CanChange(k: Kind, r: Rule) {
    exists p, a :: Resolved(p) && ValidSpec(a) && KindOf(a) == k && ChangesAlone(p, a, r)
  }

  lemma WholeBreaksChange(p: Policy, r: Rule)
    requires p == STRICTEST && AboutPause(r)
    ensures ChangesAlone(p, RestBreaks(None, None), r)
  {
    ApplyOne(p, RestBreaks(None, None));
    ModesKeepPauses(Step(p, RestBreaks(None, None)), r);
  }

  lemma WholeChanges(p: Policy, r: Rule, k: Kind)
    requires p == STRICTEST && k in Listed(r) && !(k == ExemptionsKind && r == CameraIntegrityRule)
    ensures ChangesAlone(p, Whole(k), r)
  {
    if AboutPause(r) {
      WholeBreaksChange(p, r);
    } else {
      WholeContributes(r, k);
      assert Strict(p, r);
      StrictChangesIff(p, Whole(k), r);
    }
  }

  lemma WholeContributes(r: Rule, k: Kind)
    requires k in Listed(r) && !(k == ExemptionsKind && r == CameraIntegrityRule)
    ensures ContributesAlone(Whole(k), r)
  {
  }

  lemma StrictestIsResolved(p: Policy)
    requires p == STRICTEST
    ensures Resolved(p)
  {
  }

  /**
   * The list of prefixes is exact but for one entry: a kind is listed for a rule if and only if an accommodation of the
   * kind can change it, or it is the exemptions and the rule that camera problems are observed.
   */
  lemma ListedIffCanChange(r: Rule, k: Kind)
    ensures k in KindsForPath(Path(r)) <==> CanChange(k, r) || (k == ExemptionsKind && r == CameraIntegrityRule)
  {
    PathIsListed(r);
    CanChangeIffListed(STRICTEST, r, k);
  }

  lemma CanChangeIffListed(p: Policy, r: Rule, k: Kind)
    requires p == STRICTEST
    ensures k in Listed(r) <==> CanChange(k, r) || (k == ExemptionsKind && r == CameraIntegrityRule)
  {
    if CanChange(k, r) {
      var q, a :| Resolved(q) && ValidSpec(a) && KindOf(a) == k && ChangesAlone(q, a, r);
      AloneIsListed(q, a, r);
    }
    if k in Listed(r) && !(k == ExemptionsKind && r == CameraIntegrityRule) {
      StrictestIsResolved(p);
      WholeChanges(p, r, k);
    }
  }

  /** With an exemption for something else, no camera puts the end of camera observation down to the exemption too. */
  lemma ExemptionNamedInVain(p: Policy, exemption: Spec, noCamera: Spec, r: Rule)
    requires Resolved(p) && p.detectors.cameraIntegrity && r == CameraIntegrityRule
    requires exemption.DetectionExemptions? && noCamera.NoCamera?
    ensures var items := [exemption, noCamera];
      && Value(Apply(p, items), r) != Value(p, r)
      && ExemptionsKind in Attributed(Path(r), items)
      && !ChangedBy(p, items, r, ExemptionsKind)
  {
    var items := [exemption, noCamera];
    assert KindOf(items[0]) == ExemptionsKind && KindOf(items[1]) == NoCameraKind;
    NamesListed(items, r, 0);
    CameraGoesOff(p, exemption, noCamera);
    ExemptionsSpareCameraProblems(p, exemption);
  }

  lemma NamesListed(items: seq<Spec>, r: Rule, i: nat)
    requires i < |items| && KindOf(items[i]) in Listed(r)
    ensures KindOf(items[i]) in Attributed(Path(r), items)
  {
    PathIsListed(r);
    assert IsPresent(items, KindOf(items[i]));
  }

  lemma CameraGoesOff(p: Policy, a: Spec, b: Spec)
    requires p.detectors.cameraIntegrity && b.NoCamera?
    ensures Value(Apply(p, [a, b]), CameraIntegrityRule) != Value(p, CameraIntegrityRule)
  {
    assert [a, b][..1] == [a];
    assert Fold(p, [a, b]) == Step(Fold(p, [a]), b);
    assert !Apply(p, [a, b]).detectors.cameraIntegrity;
  }

  lemma ExemptionsSpareCameraProblems(p: Policy, a: Spec)
    requires Resolved(p) && p.detectors.cameraIntegrity && a.DetectionExemptions?
    ensures !ChangesAlone(p, a, CameraIntegrityRule)
  {
    StrictChangesIff(p, a, CameraIntegrityRule);
  }

  /**
   * What the kinds of a listed exception say: each granted accommodation that changes the setting by itself is of a
   * named kind, and of the named kinds exactly those that contribute hold one that does.
   */
  lemma NamedKindsIff(p: Policy, items: seq<Spec>, e: Exception)
    requires Storable(p) && Resolved(p) && forall i :: 0 <= i < |items| ==> ValidSpec(items[i])
    requires e in Differences(Leaves(ToTree(p), ""), Leaves(ToTree(Apply(p, items)), ""))
    ensures exists r :: NamesRightly(p, items, e, r)
  {
    var q := Apply(p, items);
    var n := AttributedPlace(p, q, items, e);
    AppliedSameElsewhere(p, items);
    DifferenceIsRule(p, q, n);
    var r :| KeyLists(ToTree(p))[n] == Keys(r) && Values(ToTree(p))[n] == Value(p, r)
      && Values(ToTree(q))[n] == Value(q, r);
    PathIsListed(r);
    forall k | k in Attributed(e.path, items) ensures ChangedBy(p, items, r, k) <==> Contributes(items, r, k) {
      NamedKindChangedIff(p, items, r, k);
    }
    forall i | 0 <= i < |items| && ChangesAlone(p, items[i], r) ensures KindOf(items[i]) in Attributed(e.path, items) {
      AloneIsListed(p, items[i], r);
      NamesListed(items, r, i);
    }
    assert NamesRightly(p, items, e, r);
  }

  ghost predicate NamesRightly(p: Policy, items: seq<Spec>, e: Exception, r: Rule) {
    && e == Exception(Path(r), Value(p, r), Value(Apply(p, items), r))
    && (forall i :: 0 <= i < |items| && ChangesAlone(p, items[i], r) ==> KindOf(items[i]) in Attributed(e.path, items))
    && (forall k :: k in Attributed(e.path, items) ==> (ChangedBy(p, items, r, k) <==> Contributes(items, r, k)))
  }

  /**
   * Every listed exception names at least one kind, and one of the named kinds belongs to a granted accommodation that
   * changes the very setting on its own.
   */
  lemma EveryExceptionIsAttributed(p: Policy, items: seq<Spec>, e: Exception)
    requires Storable(p) && Resolved(p) && forall i :: 0 <= i < |items| ==> ValidSpec(items[i])
    requires e in Differences(Leaves(ToTree(p), ""), Leaves(ToTree(Apply(p, items)), ""))
    ensures exists r, i :: 0 <= i < |items| && e == Exception(Path(r), Value(p, r), Value(Apply(p, items), r))
                           && KindOf(items[i]) in Attributed(e.path, items)
                           && Value(Apply(p, [items[i]]), r) != e.from
  {
    var q := Apply(p, items);
    var i := AttributedPlace(p, q, items, e);
    AppliedSameElsewhere(p, items);
    DifferenceIsRule(p, q, i);
    var r :| KeyLists(ToTree(p))[i] == Keys(r) && Values(ToTree(p))[i] == Value(p, r)
      && Values(ToTree(q))[i] == Value(q, r);
    EveryChangeIsCaused(p, items, r);
    PathIsListed(r);
    var k :| 0 <= k < |items| && KindOf(items[k]) in Listed(r) && Value(Apply(p, [items[k]]), r) != Value(p, r);
    assert IsPresent(items, KindOf(items[k]));
  }

  lemma AttributedPlace(p: Policy, q: Policy, items: seq<Spec>, e: Exception) returns (i: nat)
    requires Storable(p) && q == Apply(p, items)
    requires e in Differences(Leaves(ToTree(p), ""), Leaves(ToTree(q), ""))
    ensures i < |KeyLists(ToTree(p))| == |KeyLists(ToTree(q))|
    ensures e == Exception(PathOf("", KeyLists(ToTree(p))[i]), Values(ToTree(p))[i], Values(ToTree(q))[i])
      && e.from != e.to
  {
    FoldKeepsFixed(p, items);
    StoredWell(p);
    StoredSameShape(p, q);
    SameShapeKeys(ToTree(p), ToTree(q));
    SettingsNamed(ToTree(p));
    ListedDiffers(Leaves(ToTree(p), ""), Leaves(ToTree(q), ""), e);
    var applied := Leaves(ToTree(q), "");
    i :| 0 <= i < |applied| && e == Exception(applied[i].path, Lookup(Leaves(ToTree(p), ""), applied[i].path),
      applied[i].value)
      && e.from != e.to;
    LeafAt(ToTree(q), "", i);
    LookupFinds(ToTree(p), i);
  }
}
