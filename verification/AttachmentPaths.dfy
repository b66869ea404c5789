/** Attachment keys as paths (apps/cloud/src/server-storage.ts, server-capture.ts). */
module AttachmentPaths {
  import opened Options
  import opened JsText

  const MAX_LENGTH := 512
  const MAX_SEGMENTS := 16
  const PREFIX := "attachments/"

  predicate Allowed(c: char) {
    'a' <= c <= 'z' || 'A' <= c <= 'Z' || '0' <= c <= '9' || c == '.' || c == '_' || c == '/' || c == '-'
  }

  function HexValue(c: char): Option<nat> {
    if '0' <= c <= '9' then Some((c - '0') as nat)
    else if 'a' <= c <= 'f' then Some((c - 'a') as nat + 10)
    else if 'A' <= c <= 'F' then Some((c - 'A') as nat + 10)
    else None
  }

  /**
   * decodeURIComponent.  Escapes of bytes above 7F give an error or a character that no
   * attachment path may hold; both end as None here, as they do in Normalize.
   */
  function Decoded(s: string): (r: Option<string>)
    ensures '%' !in s ==> r == Some(s)
  {
    if s == [] then Some([])
    else if s[0] != '%' then
      assert [s[0]] + s[1..] == s;
      var rest := Decoded(s[1..]);
      if rest.None? then None else Some([s[0]] + rest.value)
    else if |s| < 3 || HexValue(s[1]).None? || HexValue(s[2]).None? || HexValue(s[1]).value >= 8 then None
    else
      var rest := Decoded(s[3..]);
      if rest.None? then None else Some([(HexValue(s[1]).value * 16 + HexValue(s[2]).value) as char] + rest.value)
  }

  function NonEmpty(parts: seq<string>): (r: seq<string>)
    ensures forall p | p in r :: p in parts && p != []
  {
    if parts == [] then [] else (if parts[0] == [] then [] else [parts[0]]) + NonEmpty(parts[1..])
  }

  /** The segments of a path; leading, trailing and doubled slashes make none. */
  function Segments(s: string): (r: seq<string>)
    ensures forall p | p in r :: p != [] && '/' !in p
  {
    NonEmpty(Split(s, '/'))
  }

  predicate Acceptable(segments: seq<string>) {
    1 <= |segments| <= MAX_SEGMENTS && forall p | p in segments :: p != "." && p != ".."
  }

  /** normalizeAttachmentRelativePath. */
  function Normalize(raw: string): (r: Option<string>) {
    var decoded := Decoded(raw);
    if decoded.None? || '%' in decoded.value || decoded.value == [] || |decoded.value| > MAX_LENGTH then None
    else if exists c | c in decoded.value :: !Allowed(c) then None
    else if !Acceptable(Segments(decoded.value)) then None
    else Some(Join(Segments(decoded.value), '/'))
  }

  // ---- what a normalized path is ----

  lemma {:induction false} NonEmptyIsShorter(parts: seq<string>)
    requires parts != []
    ensures NonEmpty(parts) != [] ==> |Join(NonEmpty(parts), '/')| <= |Join(parts, '/')|
    ensures forall c | NonEmpty(parts) != [] && c in Join(NonEmpty(parts), '/') :: c in Join(parts, '/')
  {
    if |parts| > 1 {
      NonEmptyIsShorter(parts[1..]);
      var rest := NonEmpty(parts[1..]);
      if parts[0] == [] {
        assert NonEmpty(parts) == rest;
      } else if rest == [] {
        assert NonEmpty(parts) == [parts[0]];
      } else {
        assert NonEmpty(parts)[1..] == rest;
      }
    } else {
      assert NonEmpty(parts) == if parts[0] == [] then [] else [parts[0]];
    }
  }

  lemma {:induction false} SplitAppend(a: string, s: string, sep: char)
    requires sep !in a
    ensures Split(a + [sep] + s, sep) == [a] + Split(s, sep)
    ensures Split(a, sep) == [a]
  {
    if a == [] {
      assert a + [sep] + s == [sep] + s;
    } else {
      SplitAppend(a[1..], s, sep);
      assert (a + [sep] + s)[1..] == a[1..] + [sep] + s;
      assert ([a[1..]] + Split(s, sep))[1..] == Split(s, sep);
      assert [a[0]] + a[1..] == a;
    }
  }

  /** Segments without slashes come back from the path they make. */
  lemma {:induction false} SegmentsOfJoin(parts: seq<string>)
    requires parts != [] && forall p | p in parts :: p != [] && '/' !in p
    ensures Segments(Join(parts, '/')) == parts
  {
    if |parts| == 1 {
      SplitAppend(parts[0], [], '/');
      assert NonEmpty([parts[0]]) == [parts[0]];
    } else {
      assert forall p | p in parts[1..] :: p in parts;
      SegmentsOfJoin(parts[1..]);
      SplitAppend(parts[0], Join(parts[1..], '/'), '/');
      assert ([parts[0]] + Split(Join(parts[1..], '/'), '/'))[1..] == Split(Join(parts[1..], '/'), '/');
    }
  }

  /** A normalized path holds allowed characters only, and normalizing it again changes nothing. */
  lemma NormalizeIsStable(raw: string)
    requires Normalize(raw).Some?
    ensures var p := Normalize(raw).value;
      Normalize(p) == Some(p) && Acceptable(Segments(p)) && p == Join(Segments(p), '/') && forall c | c in p :: Allowed(c)
  {
    var d := Decoded(raw).value;
    var p := Normalize(raw).value;
    SplitJoin(d, '/');
    NonEmptyIsShorter(Split(d, '/'));
    SegmentsOfJoin(Segments(d));
    assert forall c | c in p :: Allowed(c);
    assert !Allowed('%');
    assert p != [] by { assert Segments(p) != []; assert NonEmpty(Split("", '/')) == [] by { assert Split("", '/') == [[]]; } }
  }

  /** Exactly the paths made of acceptable segments of allowed characters are their own normal form. */
  lemma NormalFormsAre(p: string)
    ensures Normalize(p) == Some(p) <==>
      && 1 <= |p| <= MAX_LENGTH && (forall c | c in p :: Allowed(c))
      && Acceptable(Segments(p)) && p == Join(Segments(p), '/')
  {
    assert !Allowed('%');
    if Normalize(p) == Some(p) { NormalizeIsStable(p); AcceptedIsShort(p); }
  }

  /** A path of good names is its own normal form, and has those names as its segments. */
  lemma GoodNamesAreNormal(parts: seq<string>)
    requires Acceptable(parts) && |Join(parts, '/')| <= MAX_LENGTH && forall c | c in Join(parts, '/') :: Allowed(c)
    requires forall p | p in parts :: p != [] && '/' !in p
    ensures Normalize(Join(parts, '/')) == Some(Join(parts, '/')) && Segments(Join(parts, '/')) == parts
  {
    SegmentsOfJoin(parts);
    assert parts[0] in parts;
    NormalFormsAre(Join(parts, '/'));
  }

  lemma AcceptedIsShort(raw: string)
    requires Normalize(raw).Some?
    ensures 1 <= |Normalize(raw).value| <= MAX_LENGTH
  {
    var d := Decoded(raw).value;
    SplitJoin(d, '/');
    NonEmptyIsShorter(Split(d, '/'));
    assert Segments(d)[0] in Segments(d);
  }

  // ---- keys and stored files ----

  /** captureAudioStoragePath. */
  function CaptureStoragePath(cloudKey: string): string {
    if PREFIX <= cloudKey then cloudKey[|PREFIX|..] else cloudKey
  }

  lemma {:induction false} SplitOfPrefixed(k: string)
    ensures Segments(PREFIX + k) == ["attachments"] + Segments(k)
  {
    assert PREFIX + k == "attachments" + ['/'] + k;
    SplitAppend("attachments", k, '/');
    assert (["attachments"] + Split(k, '/'))[1..] == Split(k, '/');
  }

  function After(a: string, r: Option<string>): Option<string> {
    if r.None? then None else Some(a + r.value)
  }

  lemma AfterCons(c: char, a: string, r: Option<string>)
    ensures After([c], After(a, r)) == After([c] + a, r)
    ensures After([], r) == r
  {
    if r.Some? {
      assert [c] + (a + r.value) == [c] + a + r.value;
      assert [] + r.value == r.value;
    }
  }

  lemma DecodedCons(c: char, s: string)
    requires c != '%'
    ensures Decoded([c] + s) == After([c], Decoded(s))
  {
    assert ([c] + s)[1..] == s;
  }

  /** Plain text in front of a key stays as it is when the key is decoded. */
  lemma {:induction false} DecodedAppend(a: string, k: string, r: Option<string>)
    requires '%' !in a && r == Decoded(k)
    ensures Decoded(a + k) == After(a, r)
  {
    if a == [] {
      assert a + k == k;
      AfterCons('%', [], r);
    } else {
      var c, rest := a[0], a[1..];
      assert a == [c] + rest && c in a;
      DecodedAppend(rest, k, r);
      AppendStep(c, rest, k, r);
    }
  }

  lemma AppendStep(c: char, rest: string, k: string, r: Option<string>)
    requires c != '%' && Decoded(rest + k) == After(rest, r)
    ensures Decoded([c] + rest + k) == After([c] + rest, r)
  {
    DecodedCons(c, rest + k);
    AfterCons(c, rest, r);
    assert [c] + (rest + k) == [c] + rest + k;
  }

  /** A captured key has the normal form of the path it is stored at exactly when it does not start with `attachments/`. */
  lemma PrefixChangesNormalForm(cloudKey: string)
    requires Normalize(CaptureStoragePath(cloudKey)).Some?
    ensures Normalize(cloudKey) == Normalize(CaptureStoragePath(cloudKey)) <==> !(PREFIX <= cloudKey)
  {
    if PREFIX <= cloudKey {
      var k := cloudKey[|PREFIX|..];
      assert cloudKey == PREFIX + k;
      DecodedAppend(PREFIX, k, Decoded(k));
      SplitOfPrefixed(Decoded(k).value);
      var segments := Segments(Decoded(k).value);
      if Normalize(cloudKey).Some? {
        assert (["attachments"] + segments)[1..] == segments;
        assert Normalize(cloudKey).value == "attachments" + ['/'] + Join(segments, '/');
        assert |Normalize(cloudKey).value| != |Join(segments, '/')|;
      }
    }
  }
}
