/** Storage locations: which two could share a file or object, and which variable configures which setting. */
module StorageLocations {
  import opened JsonValues
  import Strings

  /** POSIX paths. */
  const SEP := '/'

  datatype Backend =
    | Fs(dir: string)
    | S3(bucket: string, endpoint: Option<string>, prefix: string)

  function Endpoint(e: Option<string>): string {
    if e.Some? then e.value else ""
  }

  /** `s.startsWith(p)`. */
  predicate StartsWith(s: string, p: string) {
    |p| <= |s| && s[..|p|] == p
  }

  predicate StorageOverlaps(a: Backend, b: Backend) {
    match (a, b)
    case (Fs(d), Fs(e)) => d == e || StartsWith(d, e + [SEP]) || StartsWith(e, d + [SEP])
    case (S3(bucket, end, p), S3(other, otherEnd, q)) =>
      if bucket != other || Endpoint(end) != Endpoint(otherEnd) then false
      else p == q || p == "" || q == "" || StartsWith(p, q + "/") || StartsWith(q, p + "/")
    case _ => false
  }

  lemma OverlapIsSymmetric(a: Backend, b: Backend)
    ensures StorageOverlaps(a, b) == StorageOverlaps(b, a)
  {
  }

  /* ---------------------------------------------------------------- resolving */

  /** The names between the separators; a leading separator gives an empty first name. */
  function Names(path: string): (r: seq<string>)
    ensures |r| > 0
  {
    Strings.SplitAt(path, SEP)
  }

  /** `resolve` of an absolute path: empty names and dots go, two dots take the name before with them. */
  function Walk(names: seq<string>, at: seq<string>): seq<string> {
    if names == [] then at
    else if names[0] == "" || names[0] == "." then Walk(names[1..], at)
    else if names[0] == ".." then Walk(names[1..], if at == [] then at else at[..|at| - 1])
    else Walk(names[1..], at + [names[0]])
  }

  function Path(names: seq<string>): string {
    if names == [] then "" else [SEP] + names[0] + Path(names[1..])
  }

  /** The directory that the file store works under; the root directory comes out empty here. */
  function Resolved(dir: string): string {
    Path(Walk(Names(dir), []))
  }

  predicate Plain(name: string) {
    SEP !in name
  }

  /** A name that stays in a resolved path. */
  predicate Clean(name: string) {
    Plain(name) && name != "" && name != "." && name != ".."
  }

  predicate AllClean(names: seq<string>) {
    forall i :: 0 <= i < |names| ==> Clean(names[i])
  }

  lemma {:induction false} NamesArePlain(path: string)
    ensures forall i :: 0 <= i < |Names(path)| ==> Plain(Names(path)[i])
  {
    if path != "" {
      NamesArePlain(path[1..]);
      var rest := Names(path[1..]);
      assert Plain(rest[0]);
    }
  }

  lemma {:induction false} WalkIsClean(names: seq<string>, at: seq<string>)
    requires AllClean(at) && forall i :: 0 <= i < |names| ==> Plain(names[i])
    ensures AllClean(Walk(names, at))
    decreases |names|
  {
    if names != [] {
      var next := if names[0] == "" || names[0] == "." then at
                  else if names[0] == ".." then (if at == [] then at else at[..|at| - 1])
                  else at + [names[0]];
      assert AllClean(next);
      WalkIsClean(names[1..], next);
    }
  }

  lemma {:induction false} CleanWalks(names: seq<string>, at: seq<string>)
    requires AllClean(names)
    ensures Walk(names, at) == at + names
    decreases |names|
  {
    if names == [] {
      assert at + names == at;
    } else {
      CleanWalks(names[1..], at + [names[0]]);
      assert at + [names[0]] + names[1..] == at + names;
    }
  }

  lemma {:induction false} NamesOfName(name: string, rest: string)
    requires Plain(name) && (rest == "" || rest[0] == SEP)
    ensures Names(name + rest) == [name] + Names(rest)[1..]
  {
    if name == "" {
      assert name + rest == rest;
    } else {
      var path := name + rest;
      assert path[0] == name[0] && path[1..] == name[1..] + rest;
      NamesOfName(name[1..], rest);
      assert [name[0]] + name[1..] == name;
    }
  }

  lemma {:induction false} NamesOfPath(names: seq<string>)
    requires AllClean(names)
    ensures Names(Path(names)) == [""] + names
  {
    if names == [] {
    } else {
      NamesOfPath(names[1..]);
      var rest := Path(names[1..]);
      NamesOfName(names[0], rest);
      assert Path(names) == [SEP] + (names[0] + rest);
      NamesOfSep(names[0] + rest);
      assert [names[0]] + ([""] + names[1..])[1..] == names;
    }
  }

  lemma NamesOfSep(rest: string)
    ensures Names([SEP] + rest) == [""] + Names(rest)
  {
    assert ([SEP] + rest)[1..] == rest;
  }

  /** What resolves is written as it resolves. */
  lemma ResolvingIsIdempotent(dir: string)
    ensures Resolved(Resolved(dir)) == Resolved(dir)
    ensures Resolved(dir) != "" ==> Normalised(Fs(Resolved(dir)))
  {
    var names := Walk(Names(dir), []);
    NamesArePlain(dir);
    WalkIsClean(Names(dir), []);
    NamesOfPath(names);
    assert ([""] + names)[1..] == names;
    CleanWalks(names, []);
    assert [] + names == names;
  }

  lemma {:induction false} NamesOfTrailing(path: string)
    ensures Names(path + [SEP]) == Names(path) + [""]
  {
    if path == "" {
      assert path + [SEP] == [SEP] && [SEP][1..] == "";
    } else {
      NamesOfTrailing(path[1..]);
      assert (path + [SEP])[1..] == path[1..] + [SEP];
    }
  }

  lemma {:induction false} EmptyNameWalks(names: seq<string>, at: seq<string>)
    ensures Walk(names + [""], at) == Walk(names, at)
    decreases |names|
  {
    if names == [] {
      assert names + [""] == [""];
    } else {
      assert (names + [""])[1..] == names[1..] + [""];
      EmptyNameWalks(names[1..], if names[0] == "" || names[0] == "." then at
                                 else if names[0] == ".." then (if at == [] then at else at[..|at| - 1])
                                 else at + [names[0]]);
    }
  }

  /* ---------------------------------------------------------------- keys of blobs */

  predicate KeyStart(ch: char) {
    'A' <= ch <= 'Z' || 'a' <= ch <= 'z' || '0' <= ch <= '9'
  }

  predicate KeyChar(ch: char) {
    KeyStart(ch) || ch == '.' || ch == '_' || ch == '-'
  }

  predicate Segment(name: string) {
    name != "" && KeyStart(name[0]) && forall i :: 0 <= i < |name| ==> KeyChar(name[i])
  }

  predicate HasTwoDots(s: string) {
    exists i :: 0 < i < |s| && s[i - 1] == '.' && s[i] == '.'
  }

  const LONGEST_KEY := 512

  /** The keys that are not refused: segments between separators, no two dots, not too long. */
  predicate ValidKey(key: string) {
    |key| <= LONGEST_KEY && !HasTwoDots(key) && forall i :: 0 <= i < |Names(key)| ==> Segment(Names(key)[i])
  }

  lemma {:induction false} NamesOfJoin(a: string, b: string)
    ensures Names(a + [SEP] + b) == Names(a) + Names(b)
    decreases |a|
  {
    if a == "" {
      assert a + [SEP] + b == [SEP] + b;
      NamesOfSep(b);
    } else {
      assert (a + [SEP] + b)[1..] == a[1..] + [SEP] + b;
      NamesOfJoin(a[1..], b);
    }
  }

  lemma DotsOfJoin(a: string, b: string)
    ensures HasTwoDots(a + [SEP] + b) <==> HasTwoDots(a) || HasTwoDots(b)
  {
    var whole := a + [SEP] + b;
    forall i | 0 < i < |a| && a[i - 1] == '.' && a[i] == '.' ensures HasTwoDots(whole) {
      assert whole[i - 1] == '.' && whole[i] == '.';
    }
    forall i | 0 < i < |b| && b[i - 1] == '.' && b[i] == '.' ensures HasTwoDots(whole) {
      var k := |a| + 1 + i;
      assert whole[k - 1] == '.' && whole[k] == '.';
    }
  }

  /** A key below a key. */
  lemma ValidJoin(a: string, b: string)
    ensures ValidKey(a + [SEP] + b) <==> ValidKey(a) && ValidKey(b) && |a| + 1 + |b| <= LONGEST_KEY
  {
    NamesOfJoin(a, b);
    DotsOfJoin(a, b);
    var x, y, all := Names(a), Names(b), Names(a + [SEP] + b);
    assert forall i :: 0 <= i < |x| ==> all[i] == x[i];
    assert forall i :: 0 <= i < |y| ==> all[|x| + i] == y[i];
  }

  lemma ShortestKey()
    ensures ValidKey("x")
  {
    var x := "x";
    assert x[1..] == "" && Names(x[1..]) == [""];
    assert [x[0]] + "" == x;
    assert Names(x) == [x];
  }

  lemma {:induction false} OneName(s: string)
    requires Plain(s)
    ensures Names(s) == [s]
  {
    if s != "" {
      OneName(s[1..]);
      assert [s[0]] + s[1..] == s;
    }
  }

  lemma OneSegment(key: string)
    requires Plain(key)
    ensures ValidKey(key) <==> |key| <= 512 && !HasTwoDots(key) && Segment(key)
  {
    OneName(key);
    assert Names(key)[0] == key;
  }

  /** A name of letters and digits alone is a key up to 512 characters. */
  lemma LongestKey(n: nat)
    ensures ValidKey(seq(n, i => 'a')) <==> 1 <= n <= 512
  {
    OneSegment(seq(n, i => 'a'));
  }

  predicate LetterOrDigit(c: char) {
    'A' <= c <= 'Z' || 'a' <= c <= 'z' || '0' <= c <= '9'
  }

  /** A key starts with a letter or digit. */
  lemma FirstCharacter(c: char)
    ensures ValidKey([c]) <==> LetterOrDigit(c)
  {
    var key := [c];
    assert key[0] == c && !HasTwoDots(key);
    if c == SEP {
      assert key == "" + [SEP] + "";
      ValidJoin("", "");
      assert !Segment(Names("")[0]);
    } else {
      OneSegment(key);
    }
  }

  /** Dots, underscores and hyphens may follow. */
  lemma LaterCharacter(c: char)
    ensures ValidKey(['x', c]) <==> LetterOrDigit(c) || c == '.' || c == '_' || c == '-'
  {
    var key := ['x', c];
    assert key[0] == 'x' && key[1] == c && !HasTwoDots(key);
    if c == SEP {
      assert key == "x" + [SEP] + "";
      ShortestKey();
      ValidJoin("x", "");
      assert !Segment(Names("")[0]);
    } else {
      OneSegment(key);
      assert KeyChar(key[0]);
    }
  }

  /** Blobs can have keys that start with this name and a separator. */
  predicate KeyPrefix(name: string) {
    ValidKey(name) && |name| + 2 <= LONGEST_KEY
  }

  lemma KeysBelow(name: string, other: string)
    ensures KeyPrefix(name) ==> ValidKey(name + [SEP] + "x")
    ensures ValidKey(name + [SEP] + other) ==> KeyPrefix(name)
  {
    ShortestKey();
    ValidJoin(name, "x");
    ValidJoin(name, other);
    assert other == "" ==> !Segment(Names(other)[0]);
  }

  /* ---------------------------------------------------------------- where a blob goes */

  datatype Address = File(path: string) | Object(endpoint: string, bucket: string, key: string)

  /**
   * Where a backend puts the blob `key`; none for a refused key, nor in the root directory, whose name ends in a
   * separator already.
   */
  function AddressOf(b: Backend, key: string): Option<Address> {
    if !ValidKey(key) then None
    else
      match b
      case Fs(dir) =>
        var root := Resolved(dir);
        var path := Resolved(root + [SEP] + key);
        if root != "" && StartsWith(path, root + [SEP]) then Some(File(path)) else None
      case S3(bucket, end, prefix) =>
        Some(Object(Endpoint(end), bucket, if prefix == "" then key else prefix + [SEP] + key))
  }

  lemma {:induction false} PathOfNames(s: string)
    ensures Path(Names(s)) == [SEP] + s
  {
    if s != "" {
      PathOfNames(s[1..]);
      var rest := Names(s[1..]);
      if s[0] == SEP {
        assert ([""] + rest)[1..] == rest;
        assert [SEP] + "" + ([SEP] + s[1..]) == [SEP] + s;
      } else {
        var name := [s[0]] + rest[0];
        assert ([name] + rest[1..])[1..] == rest[1..];
        assert s[1..] == rest[0] + Path(rest[1..]) by {
          assert ([SEP] + s[1..])[1..] == s[1..] && ([SEP] + rest[0] + Path(rest[1..]))[1..]
            == rest[0] + Path(rest[1..]);
        }
        assert [SEP] + name + Path(rest[1..]) == [SEP] + ([s[0]] + (rest[0] + Path(rest[1..])));
      }
    }
  }

  lemma {:induction false} PathOfBoth(a: seq<string>, b: seq<string>)
    ensures Path(a + b) == Path(a) + Path(b)
    decreases |a|
  {
    if a == [] {
      assert a + b == b;
    } else {
      assert (a + b)[1..] == a[1..] + b;
      PathOfBoth(a[1..], b);
    }
  }

  lemma KeyNamesAreClean(key: string)
    requires ValidKey(key)
    ensures AllClean(Names(key))
  {
    NamesArePlain(key);
    forall i | 0 <= i < |Names(key)| ensures Clean(Names(key)[i]) {
      assert Segment(Names(key)[i]);
    }
  }

  lemma WalkBelow(names: seq<string>, key: string)
    requires AllClean(names) && ValidKey(key)
    ensures Walk(Names(Path(names) + [SEP] + key), []) == names + Names(key)
  {
    KeyNamesAreClean(key);
    NamesOfPath(names);
    NamesOfJoin(Path(names), key);
    var all := names + Names(key);
    assert [""] + names + Names(key) == [""] + all;
    assert ([""] + all)[1..] == all;
    CleanWalks(all, []);
    assert [] + all == all;
  }

  /** In a bucket a blob has its own name behind the prefix, at the endpoint of the backend. */
  lemma ObjectIsInItsBucket(bucket: string, end: Option<string>, prefix: string, key: string)
    requires ValidKey(key)
    ensures var a := AddressOf(S3(bucket, end, prefix), key);
      && a.Some? && a.value.Object? && a.value.bucket == bucket && (end.Some? ==> a.value.endpoint == end.value)
      && a.value.key == (if prefix == "" then "" else prefix + "/") + key
  {
    if prefix == "" { assert "" + key == key; }
  }

  /** A valid key stays below the directory it is put in, under its own name. */
  lemma KeyStaysBelow(dir: string, key: string)
    requires ValidKey(key) && Resolved(dir) != ""
    ensures AddressOf(Fs(dir), key) == Some(File(Resolved(dir) + [SEP] + key))
  {
    var names := Walk(Names(dir), []);
    var root := Path(names);
    NamesArePlain(dir);
    WalkIsClean(Names(dir), []);
    WalkBelow(names, key);
    PathOfBoth(names, Names(key));
    PathOfNames(key);
    assert root + ([SEP] + key) == root + [SEP] + key;
    assert (root + [SEP] + key)[..|root| + 1] == root + [SEP];
  }

  /** A backend whose directory is written as it resolves. */
  predicate Normalised(b: Backend) {
    b.Fs? ==> b.dir != "" && Resolved(b.dir) == b.dir
  }

  ghost predicate Separate(a: Backend, b: Backend) {
    forall key, other :: AddressOf(a, key).Some? ==> AddressOf(a, key) != AddressOf(b, other)
  }

  /* ---------------------------------------------------------------- which backends share a blob */

  /** One of two places is under the other, or they are the same, if blobs in them can have the same name. */
  lemma SamePlace(d: string, e: string, key: string, other: string)
    requires d + [SEP] + key == e + [SEP] + other
    ensures d == e || StartsWith(d, e + [SEP]) || StartsWith(e, d + [SEP])
    ensures StartsWith(e, d + [SEP]) ==> key == e[|d| + 1..] + [SEP] + other
    ensures StartsWith(d, e + [SEP]) ==> other == d[|e| + 1..] + [SEP] + key
  {
    var whole := d + [SEP] + key;
    assert whole[..|d|] == d && whole[..|e|] == e;
    assert whole[..|d| + 1] == d + [SEP] && whole[|d| + 1..] == key;
    assert (e + [SEP] + other)[..|e| + 1] == e + [SEP] && (e + [SEP] + other)[|e| + 1..] == other;
    if |d| < |e| {
      assert e[..|d| + 1] == whole[..|e|][..|d| + 1] == whole[..|d| + 1];
      assert key == whole[|d| + 1..|e|] + whole[|e|..];
    } else if |e| < |d| {
      assert d[..|e| + 1] == whole[..|d|][..|e| + 1] == whole[..|e| + 1];
      assert other == whole[|e| + 1..|d|] + whole[|d|..];
    }
  }

  /** Some blob in `inner` has a name that a blob in `outer` may have: the part between them must be part of a key. */
  predicate Below(inner: string, outer: string) {
    StartsWith(inner, outer + [SEP]) && KeyPrefix(inner[|outer| + 1..])
  }

  lemma BelowMeets(inner: string, outer: string) returns (key: string)
    requires Below(inner, outer)
    ensures ValidKey(key) && outer + [SEP] + key == inner + [SEP] + "x"
  {
    var between := inner[|outer| + 1..];
    KeysBelow(between, "x");
    key := between + [SEP] + "x";
    assert inner == (outer + [SEP]) + between;
  }

  lemma MeetingIsBelow(d: string, e: string, key: string, other: string)
    requires ValidKey(key) && ValidKey(other) && d + [SEP] + key == e + [SEP] + other
    ensures d == e || Below(d, e) || Below(e, d)
  {
    SamePlace(d, e, key, other);
    if StartsWith(e, d + [SEP]) {
      KeysBelow(e[|d| + 1..], other);
    } else if StartsWith(d, e + [SEP]) {
      KeysBelow(d[|e| + 1..], key);
    }
  }

  /** The overlaps that valid keys can reach: the same place, or one below the other by part of a key. */
  predicate BlobsMeet(a: Backend, b: Backend) {
    match (a, b)
    case (Fs(d), Fs(e)) => d == e || Below(d, e) || Below(e, d)
    case (S3(bucket, end, p), S3(other, otherEnd, q)) =>
      && bucket == other && Endpoint(end) == Endpoint(otherEnd)
      && (p == q || (if p == "" then KeyPrefix(q) else if q == "" then KeyPrefix(p) else Below(p, q) || Below(q, p)))
    case _ => false
  }

  lemma FilesSeparateIff(d: string, e: string)
    requires Normalised(Fs(d)) && Normalised(Fs(e))
    ensures Separate(Fs(d), Fs(e)) <==> !BlobsMeet(Fs(d), Fs(e))
  {
    var a, b := Fs(d), Fs(e);
    ShortestKey();
    if !BlobsMeet(a, b) {
      forall key: string, other: string | AddressOf(a, key).Some? ensures AddressOf(a, key) != AddressOf(b, other) {
        if AddressOf(a, key) == AddressOf(b, other) {
          KeyStaysBelow(d, key);
          KeyStaysBelow(e, other);
          MeetingIsBelow(d, e, key, other);
        }
      }
    } else if d == e {
      KeyStaysBelow(d, "x");
      assert AddressOf(a, "x") == AddressOf(b, "x");
    } else if Below(e, d) {
      var key := BelowMeets(e, d);
      KeyStaysBelow(d, key);
      KeyStaysBelow(e, "x");
      assert AddressOf(a, key) == AddressOf(b, "x");
    } else {
      var key := BelowMeets(d, e);
      KeyStaysBelow(e, key);
      KeyStaysBelow(d, "x");
      assert AddressOf(a, "x") == AddressOf(b, key);
    }
  }

  lemma ObjectsMeet(a: Backend, b: Backend)
    requires a.S3? && b.S3? && BlobsMeet(a, b)
    ensures !Separate(a, b)
  {
    var p, q := a.prefix, b.prefix;
    ShortestKey();
    if p == q {
      assert AddressOf(a, "x") == AddressOf(b, "x");
    } else if p == "" {
      KeysBelow(q, "x");
      assert AddressOf(a, q + [SEP] + "x") == AddressOf(b, "x");
    } else if q == "" {
      KeysBelow(p, "x");
      assert AddressOf(a, "x") == AddressOf(b, p + [SEP] + "x");
    } else if Below(q, p) {
      var key := BelowMeets(q, p);
      assert AddressOf(a, key) == AddressOf(b, "x");
    } else {
      var key := BelowMeets(p, q);
      assert AddressOf(a, "x") == AddressOf(b, key);
    }
  }

  lemma ObjectsSeparateIff(a: Backend, b: Backend)
    requires a.S3? && b.S3?
    ensures Separate(a, b) <==> !BlobsMeet(a, b)
  {
    if BlobsMeet(a, b) {
      ObjectsMeet(a, b);
    } else {
      var p, q := a.prefix, b.prefix;
      forall key: string, other: string | AddressOf(a, key).Some? ensures AddressOf(a, key) != AddressOf(b, other) {
        if AddressOf(a, key) == AddressOf(b, other) {
          if p == "" {
            KeysBelow(q, other);
          } else if q == "" {
            KeysBelow(p, key);
          } else {
            MeetingIsBelow(p, q, key, other);
          }
        }
      }
    }
  }

  /**
   * With directories written as they resolve, no file or object is shared exactly if no blobs can meet. So what the
   * check lets pass is separate, and what it refuses is shared exactly if the part between is part of a valid key.
   */
  lemma SeparateIffNoMeeting(a: Backend, b: Backend)
    requires Normalised(a) && Normalised(b)
    ensures Separate(a, b) <==> !BlobsMeet(a, b)
    ensures !StorageOverlaps(a, b) ==> Separate(a, b)
  {
    match (a, b)
    case (Fs(d), Fs(e)) => FilesSeparateIff(d, e);
    case (S3(_, _, _), S3(_, _, _)) => ObjectsSeparateIff(a, b);
    case _ =>
  }

  /** In general two directories are separate exactly if they are so as resolved: the check must see them resolved. */
  lemma FilesSeparateIffResolved(d: string, e: string)
    requires Resolved(d) != "" && Resolved(e) != ""
    ensures Separate(Fs(d), Fs(e)) <==> !BlobsMeet(Fs(Resolved(d)), Fs(Resolved(e)))
  {
    ResolvingIsIdempotent(d);
    ResolvingIsIdempotent(e);
    FilesSeparateIff(Resolved(d), Resolved(e));
    forall key: string ensures AddressOf(Fs(d), key) == AddressOf(Fs(Resolved(d)), key)
      && AddressOf(Fs(e), key) == AddressOf(Fs(Resolved(e)), key) {}
  }

  /**
   * An absolute directory given with a trailing separator slips through: what is below it is not seen to overlap, and
   * is shared exactly if its name can start a key.
   */
  lemma TrailingSeparatorIsMissed(d: string, name: string)
    requires Normalised(Fs(d)) && Normalised(Fs(d + [SEP] + name)) && name != "" && name[0] != SEP
    ensures !StorageOverlaps(Fs(d + [SEP]), Fs(d + [SEP] + name))
    ensures Separate(Fs(d + [SEP]), Fs(d + [SEP] + name)) <==> !KeyPrefix(name)
  {
    var outer, inner := d + [SEP], d + [SEP] + name;
    NamesOfTrailing(d);
    EmptyNameWalks(Names(d), []);
    assert Resolved(outer) == d;
    FilesSeparateIffResolved(outer, inner);
    assert inner[..|outer|] == outer && inner[|d| + 1..] == name;
    var n: nat := |outer|;
    assert inner[n] == name[0] && (outer + [SEP])[n] == SEP;
    if StartsWith(inner, outer + [SEP]) { PrefixAt(inner, outer + [SEP], n); }
  }

  lemma PrefixAt(s: string, p: string, i: nat)
    requires StartsWith(s, p) && i < |p|
    ensures s[i] == p[i]
  {
    assert s[..|p|][i] == s[i];
  }

  /* ---------------------------------------------------------------- location names and their variables */

  predicate Lower(c: char) { 'a' <= c <= 'z' }
  predicate LowerOrDigit(c: char) { Lower(c) || '0' <= c <= '9' }

  /** A letter first, then letters and digits with single hyphens between them; at most 32 characters. */
  predicate ValidName(name: string) {
    && 0 < |name| <= 32 && Lower(name[0]) && name[|name| - 1] != '-'
    && (forall i :: 0 <= i < |name| ==> LowerOrDigit(name[i]) || name[i] == '-')
    && forall i :: 0 < i < |name| ==> !(name[i - 1] == '-' && name[i] == '-')
  }

  function EnvChar(c: char): char {
    if Lower(c) then (c as int - 'a' as int + 'A' as int) as char else if c == '-' then '_' else c
  }

  function EnvName(name: string): (r: string)
    ensures |r| == |name| && forall i :: 0 <= i < |name| ==> r[i] == EnvChar(name[i])
  {
    if name == "" then "" else [EnvChar(name[0])] + EnvName(name[1..])
  }

  predicate Word(s: string) {
    s != "" && forall i :: 0 <= i < |s| ==> 'a' <= s[i] <= 'z' || '0' <= s[i] <= '9'
  }

  predicate AllWords(words: seq<string>) {
    forall i :: 0 <= i < |words| ==> Word(words[i])
  }

  predicate Hyphenated(s: string) {
    && s != "" && s[0] != '-' && s[|s| - 1] != '-'
    && (forall i :: 0 <= i < |s| ==> LowerOrDigit(s[i]) || s[i] == '-')
    && forall i :: 0 < i < |s| ==> !(s[i - 1] == '-' && s[i] == '-')
  }

  lemma FirstOfHyphenated(s: string)
    requires |s| > 1
    ensures Hyphenated(s) <==> LowerOrDigit(s[0]) && Hyphenated(if s[1] == '-' then s[2..] else s[1..])
  {
    var t := if s[1] == '-' then s[2..] else s[1..];
    var n := |s| - |t|;
    assert forall i :: 0 <= i < |t| ==> t[i] == s[n + i];
    assert forall i :: n <= i < |s| ==> s[i] == t[i - n];
    if LowerOrDigit(s[0]) && Hyphenated(t) {
      forall i | 0 < i < |s| ensures !(s[i - 1] == '-' && s[i] == '-') {
        if i > n { assert s[i] == t[i - n] && s[i - 1] == t[i - n - 1]; }
      }
    }
  }

  lemma {:induction false} WordsOfHyphenated(s: string)
    ensures AllWords(Strings.SplitAt(s, '-')) <==> Hyphenated(s)
    decreases |s|
  {
    var words := Strings.SplitAt(s, '-');
    if s == "" {
      assert !Word(words[0]);
    } else if s[0] == '-' {
      assert words[0] == "" && !Word(words[0]);
    } else {
      var rest := Strings.SplitAt(s[1..], '-');
      assert words[0] == [s[0]] + rest[0] && words[1..] == rest[1..];
      WordsSplit(words);
      WordGrows(s[0], rest[0]);
      if |s| == 1 {
        assert s[1..] == "" && rest == [""];
        assert words[0] == s && words[1..] == [];
        assert Hyphenated(s) <==> LowerOrDigit(s[0]);
      } else {
        FirstOfHyphenated(s);
        WordsSplit(rest);
        if s[1] == '-' {
          assert s[1..][1..] == s[2..] && rest[1..] == Strings.SplitAt(s[2..], '-') && rest[0] == "";
          WordsOfHyphenated(s[2..]);
        } else {
          assert rest[0] != "";
          WordsOfHyphenated(s[1..]);
        }
      }
    }
  }

  lemma WordsSplit(words: seq<string>)
    requires words != []
    ensures AllWords(words) <==> Word(words[0]) && AllWords(words[1..])
  {
    assert forall i :: 1 <= i < |words| ==> words[i] == words[1..][i - 1];
    assert forall i :: 0 <= i < |words[1..]| ==> words[1..][i] == words[i + 1];
  }

  lemma WordGrows(c: char, s: string)
    ensures Word([c] + s) <==> LowerOrDigit(c) && (s == "" || Word(s))
  {
    var t := [c] + s;
    assert t[0] == c && forall i :: 0 <= i < |s| ==> t[i + 1] == s[i];
  }

  /** A name is up to 32 characters of words with a hyphen between them, the first one with a letter in front. */
  lemma NameIsWords(name: string)
    ensures ValidName(name)
      <==> 1 <= |name| <= 32 && AllWords(Strings.SplitAt(name, '-')) && 'a' <= name[0] <= 'z'
  {
    WordsOfHyphenated(name);
  }

  datatype Field =
    | Driver | Label | Dir | S3Bucket | S3Region | S3Endpoint | S3AccessKeyId | S3SecretAccessKey | S3ForcePathStyle
    | S3Prefix

  function FieldText(f: Field): string {
    match f
    case Driver => "DRIVER"
    case Label => "LABEL"
    case Dir => "DIR"
    case S3Bucket => "S3_BUCKET"
    case S3Region => "S3_REGION"
    case S3Endpoint => "S3_ENDPOINT"
    case S3AccessKeyId => "S3_ACCESS_KEY_ID"
    case S3SecretAccessKey => "S3_SECRET_ACCESS_KEY"
    case S3ForcePathStyle => "S3_FORCE_PATH_STYLE"
    case S3Prefix => "S3_PREFIX"
  }

  const VARIABLES := "STORAGE_LOCATION_"

  function Variable(name: string, f: Field): string {
    VARIABLES + Setting(name, f)
  }

  function Setting(name: string, f: Field): string {
    EnvName(name) + "_" + FieldText(f)
  }

  function LastChar(f: Field): char {
    match f
    case Driver => 'R'
    case Label => 'L'
    case Dir => 'R'
    case S3Bucket => 'T'
    case S3Region => 'N'
    case S3Endpoint => 'T'
    case S3AccessKeyId => 'D'
    case S3SecretAccessKey => 'Y'
    case S3ForcePathStyle => 'E'
    case S3Prefix => 'X'
  }

  function Length(f: Field): nat {
    match f
    case Driver => 6
    case Label => 5
    case Dir => 3
    case S3Bucket => 9
    case S3Region => 9
    case S3Endpoint => 11
    case S3AccessKeyId => 16
    case S3SecretAccessKey => 20
    case S3ForcePathStyle => 19
    case S3Prefix => 9
  }

  lemma FieldShape(f: Field)
    ensures |FieldText(f)| == Length(f) && FieldText(f)[Length(f) - 1] == LastChar(f)
  {
  }

  lemma DirAndDriver()
    ensures FieldText(Driver)[2] == 'I'
  {
  }

  lemma BucketAndEndpoint()
    ensures FieldText(S3Endpoint)[1] == '3'
  {
  }

  /** No field is another one behind an underscore. */
  lemma FieldsEndApart(f: Field, g: Field)
    requires f != g && Length(f) < Length(g)
    ensures var s, t := FieldText(f), FieldText(g);
      |s| < |t| && !(t[|t| - |s| - 1] == '_' && t[|t| - 1] == s[|s| - 1])
  {
    FieldShape(f);
    FieldShape(g);
    DirAndDriver();
    BucketAndEndpoint();
  }

  lemma SameField(a: string, b: string, f: Field, g: Field)
    requires a + "_" + FieldText(f) == b + "_" + FieldText(g) && Length(f) <= Length(g)
    ensures f == g && a == b
  {
    var s, t := FieldText(f), FieldText(g);
    FieldShape(f);
    FieldShape(g);
    var whole := a + "_" + s;
    assert whole[|whole| - 1] == s[|s| - 1] && whole == b + "_" + t && whole[|whole| - 1] == t[|t| - 1];
    if Length(f) < Length(g) {
      assert whole[|a|] == '_' && whole[|b| + 1..] == t;
      assert t[|t| - |s| - 1] == whole[|a|];
      FieldsEndApart(f, g);
    } else {
      assert |a| == |b| && whole[..|a|] == a && whole[..|b|] == b;
      assert whole[|a| + 1..] == s && whole[|b| + 1..] == t;
      SameLengthFields(f, g);
    }
  }

  lemma SameLengthFields(f: Field, g: Field)
    requires FieldText(f) == FieldText(g)
    ensures f == g
  {
    FieldShape(f);
    FieldShape(g);
  }

  lemma EnvNameIsInjective(a: string, b: string)
    requires ValidName(a) && ValidName(b) && EnvName(a) == EnvName(b)
    ensures a == b
  {
    assert |a| == |b|;
    forall i | 0 <= i < |a| ensures a[i] == b[i] {
      SameChar(a, b, i);
    }
  }

  lemma SameChar(a: string, b: string, i: nat)
    requires ValidName(a) && ValidName(b) && EnvName(a) == EnvName(b) && i < |a| == |b|
    ensures a[i] == b[i]
  {
    assert EnvName(a)[i] == EnvChar(a[i]) && EnvName(b)[i] == EnvChar(b[i]);
    EnvCharIsInjective(a[i], b[i]);
  }

  lemma EnvCharIsInjective(c: char, d: char)
    requires (LowerOrDigit(c) || c == '-') && (LowerOrDigit(d) || d == '-') && EnvChar(c) == EnvChar(d)
    ensures c == d
  {
  }

  /** The name in a variable has the capitals of the letters, the same digits, and underscores for the hyphens. */
  lemma NameInVariable(name: string, i: nat)
    requires ValidName(name) && i < |name|
    ensures var c, e := name[i], EnvName(name)[i];
      || ('a' <= c <= 'z' && 'A' <= e <= 'Z' && c as int - 'a' as int == e as int - 'A' as int)
      || ('0' <= c <= '9' && e == c)
      || (c == '-' && e == '_')
  {
  }

  /** One variable configures one setting of one location. */
  lemma VariablesAreDistinct(a: string, b: string, f: Field, g: Field)
    requires ValidName(a) && ValidName(b) && Variable(a, f) == Variable(b, g)
    ensures a == b && f == g
  {
    SameRest(VARIABLES, Setting(a, f), Setting(b, g));
    if Length(f) <= Length(g) {
      SameField(EnvName(a), EnvName(b), f, g);
    } else {
      SameField(EnvName(b), EnvName(a), g, f);
    }
    EnvNameIsInjective(a, b);
  }

  lemma SameRest(p: string, x: string, y: string)
    requires p + x == p + y
    ensures x == y
  {
    assert (p + x)[|p|..] == x && (p + y)[|p|..] == y;
  }

  /* ---------------------------------------------------------------- start-up checks */

  const DEFAULT := "default"

  function LowerText(s: string): string {
    if s == "" then ""
    else [if 'A' <= s[0] <= 'Z' then (s[0] as int - 'A' as int + 'a' as int) as char else s[0]] + LowerText(s[1..])
  }

  /** `s` reads like `low`, of which `high` are the capitals. */
  predicate AnyCase(s: string, low: string, high: string)
    requires |low| == |high|
  {
    |s| == |low| && forall i :: 0 <= i < |s| ==> s[i] == low[i] || s[i] == high[i]
  }

  lemma {:induction false} LowerTextAt(s: string, i: nat)
    requires i < |s|
    ensures |LowerText(s)| == |s|
    ensures LowerText(s)[i] == if 'A' <= s[i] <= 'Z' then (s[i] as int - 'A' as int + 'a' as int) as char else s[i]
  {
    LowerTextLength(s);
    if i > 0 {
      LowerTextLength(s[1..]);
      LowerTextAt(s[1..], i - 1);
    }
  }

  lemma {:induction false} LowerTextLength(s: string)
    ensures |LowerText(s)| == |s|
  {
    if s != "" { LowerTextLength(s[1..]); }
  }

  lemma DefaultIff(s: string)
    ensures LowerText(s) == DEFAULT <==> AnyCase(s, "default", "DEFAULT")
  {
    CaseIff(s, "default", "DEFAULT");
  }

  lemma CaseIff(s: string, low: string, high: string)
    requires |low| == |high| && forall i :: 0 <= i < |low| ==> 'a' <= low[i] <= 'z'
    requires forall i :: 0 <= i < |low| ==> high[i] as int - 'A' as int == low[i] as int - 'a' as int
    ensures LowerText(s) == low <==> AnyCase(s, low, high)
  {
    LowerTextLength(s);
    forall i | 0 <= i < |s| && i < |low| ensures LowerText(s)[i] == low[i] <==> s[i] == low[i] || s[i] == high[i] {
      LowerTextAt(s, i);
    }
  }

  datatype Verdict = Accepted | Reserved(at: nat) | Invalid(at: nat) | Repeated(at: nat)

  /** What is wrong with the name at `i`, if the names before it were accepted. */
  function Problem(listed: seq<string>, i: nat): Verdict
    requires i < |listed|
  {
    if LowerText(listed[i]) == DEFAULT then Reserved(i)
    else if !ValidName(listed[i]) then Invalid(i)
    else if listed[i] in listed[..i] then Repeated(i)
    else Accepted
  }

  /** The names of the other locations, checked one by one; the first bad one refuses start-up. */
  method CheckNames(listed: seq<string>) returns (verdict: Verdict)
    ensures (verdict == Accepted) <==> Acceptable(listed)
    ensures verdict != Accepted ==>
      verdict.at < |listed| && verdict == Problem(listed, verdict.at)
      && forall i :: 0 <= i < verdict.at ==> Problem(listed, i) == Accepted
    ensures verdict.Reserved? ==> AnyCase(listed[verdict.at], "default", "DEFAULT")
    ensures verdict.Invalid? ==>
      !ValidName(listed[verdict.at]) && !AnyCase(listed[verdict.at], "default", "DEFAULT")
    ensures verdict.Repeated? ==>
      ValidName(listed[verdict.at]) && listed[verdict.at] in listed[..verdict.at]
      && !AnyCase(listed[verdict.at], "default", "DEFAULT")
  {
    var i := 0;
    while i < |listed|
      invariant 0 <= i <= |listed|
      invariant forall k :: 0 <= k < i ==> Problem(listed, k) == Accepted
    {
      verdict := Problem(listed, i);
      if verdict != Accepted {
        NoProblemIff(listed);
        DefaultIff(listed[i]);
        return;
      }
      i := i + 1;
    }
    NoProblemIff(listed);
    verdict := Accepted;
  }

  predicate Acceptable(listed: seq<string>) {
    && (forall i :: 0 <= i < |listed| ==> ValidName(listed[i]) && LowerText(listed[i]) != DEFAULT)
    && (forall i, j :: 0 <= i < j < |listed| ==> listed[i] != listed[j])
  }

  lemma NoProblemIff(listed: seq<string>)
    ensures Acceptable(listed) <==> forall i :: 0 <= i < |listed| ==> Problem(listed, i) == Accepted
  {
    if forall i :: 0 <= i < |listed| ==> Problem(listed, i) == Accepted {
      forall i, j | 0 <= i < j < |listed| ensures listed[i] != listed[j] {
        assert Problem(listed, j) == Accepted;
        assert listed[..j][i] == listed[i];
      }
      forall i | 0 <= i < |listed| ensures ValidName(listed[i]) && LowerText(listed[i]) != DEFAULT {
        assert Problem(listed, i) == Accepted;
      }
    }
  }

  /** Every two locations are compared; the first pair that overlaps refuses start-up. */
  method CheckOverlaps(locations: seq<Backend>) returns (pair: Option<(nat, nat)>)
    ensures pair.None? <==>
      forall i, j :: 0 <= i < j < |locations| ==> !StorageOverlaps(locations[i], locations[j])
    ensures pair.Some? ==> var (i, j) := pair.value;
      i < j < |locations| && StorageOverlaps(locations[i], locations[j])
      && forall a, b :: 0 <= a < b < |locations| && (a < i || (a == i && b < j)) ==>
        !StorageOverlaps(locations[a], locations[b])
  {
    var i := 0;
    while i < |locations|
      invariant 0 <= i <= |locations|
      invariant forall a, b :: 0 <= a < i && a < b < |locations| ==> !StorageOverlaps(locations[a], locations[b])
    {
      var j := i + 1;
      while j < |locations|
        invariant i < j <= |locations|
        invariant forall b :: i < b < j ==> !StorageOverlaps(locations[i], locations[b])
      {
        if StorageOverlaps(locations[i], locations[j]) { return Some((i, j)); }
        j := j + 1;
      }
      i := i + 1;
    }
    pair := None;
  }

  /** So locations that pass the check, written as they resolve, never share a file or an object. */
  lemma AcceptedLocationsAreSeparate(locations: seq<Backend>, i: nat, j: nat)
    requires i < |locations| && j < |locations| && i != j && Normalised(locations[i]) && Normalised(locations[j])
    requires forall a, b :: 0 <= a < b < |locations| ==> !StorageOverlaps(locations[a], locations[b])
    ensures Separate(locations[i], locations[j])
  {
    OverlapIsSymmetric(locations[i], locations[j]);
    SeparateIffNoMeeting(locations[i], locations[j]);
  }
}
