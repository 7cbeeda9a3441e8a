/** The image filter of src/middleware/upload.middleware.js: which uploaded
    files multer lets through, and the size cap it is configured with. */
module UploadMiddleware {

  /** The message of the Error passed to multer's callback for a refused file. */
  const ImagesOnly := "Seules les images (jpeg, jpg, png, gif, webp) sont autorisées"

  /** The `fileSize` limit, in bytes: 5 MiB, that is 5242880 bytes. */
  const UploadSizeLimit: nat := 5 * 1024 * 1024

  /** `w` occurs in `s` starting at position `i`. */
  predicate OccursAt(s: string, w: string, i: int) {
    0 <= i && i + |w| <= |s| && s[i..i + |w|] == w
  }

  /** `w` occurs somewhere in `s`, searched from the front. */
  function Contains(s: string, w: string): (r: bool)
    decreases |s|
  {
    if |w| <= |s| && s[..|w|] == w then true
    else if |s| == 0 then false
    else Contains(s[1..], w)
  }

  /** The search finds `w` exactly when it occurs at some position. */
  lemma {:induction false} ContainsIff(s: string, w: string)
    ensures Contains(s, w) <==> exists i :: OccursAt(s, w, i)
    decreases |s|
  {
    if |w| <= |s| && s[..|w|] == w {
      assert OccursAt(s, w, 0);
    } else if |s| > 0 {
      ContainsIff(s[1..], w);
      if exists i :: OccursAt(s[1..], w, i) {
        var i :| OccursAt(s[1..], w, i);
        assert s[1..][i..i + |w|] == s[i + 1..i + 1 + |w|];
        assert OccursAt(s, w, i + 1);
      }
      if exists i :: OccursAt(s, w, i) {
        var i :| OccursAt(s, w, i);
        assert s[..|w|] == s[0..|w|];
        assert i != 0;
        var t := s[1..];
        assert 0 <= i - 1 && i - 1 + |w| <= |t|;
        assert t[i - 1..i - 1 + |w|] == s[i..i + |w|];
        assert OccursAt(t, w, i - 1);
      }
    }
  }

  /** A word cannot occur in a string that lacks its first letter. */
  lemma NoOccurrenceWithoutFirst(s: string, w: string)
    requires |w| > 0 && forall i :: 0 <= i < |s| ==> s[i] != w[0]
    ensures !Contains(s, w)
  {
    ContainsIff(s, w);
    forall i | 0 <= i <= |s| - |w| ensures !OccursAt(s, w, i) {
      assert s[i..i + |w|][0] == s[i];
    }
  }

  /** `allowedTypes.test(s)`: the pattern has no anchors, so it holds when
      any alternative occurs anywhere in `s`. */
  predicate MatchesAllowed(s: string) {
    Contains(s, "jpeg") || Contains(s, "jpg") || Contains(s, "png") || Contains(s, "gif") || Contains(s, "webp")
  }

  /** The position of the last `c` in `s`, or -1. */
  function LastIndex(s: string, c: char): (r: int)
    ensures -1 <= r < |s|
    ensures r >= 0 ==> s[r] == c
    ensures forall i :: r < i < |s| ==> s[i] != c
    decreases |s|
  {
    if |s| == 0 then -1
    else if s[|s| - 1] == c then |s| - 1
    else LastIndex(s[..|s| - 1], c)
  }

  /** The path without its trailing slashes. */
  function TrimTrailingSlashes(s: string): (r: string)
    ensures |r| <= |s| && r == s[..|r|]
    ensures |r| > 0 ==> r[|r| - 1] != '/'
    ensures forall i :: |r| <= i < |s| ==> s[i] == '/'
    decreases |s|
  {
    if |s| > 0 && s[|s| - 1] == '/' then TrimTrailingSlashes(s[..|s| - 1]) else s
  }

  /** The last segment of a POSIX path, trailing slashes ignored. */
  function Basename(path: string): (b: string)
    ensures '/' !in b
  {
    var t := TrimTrailingSlashes(path);
    var slash := LastIndex(t, '/');
    t[slash + 1..]
  }

  /** `path.extname` of Node's POSIX path module: the basename from its last
      dot on, or "" when the basename has no dot, when its only leading dot
      is that last dot (a "dotfile"), or when it is "..". */
  function Extname(path: string): (e: string)
    ensures e == "" || (e[0] == '.' && '.' !in e[1..] && '/' !in e)
    ensures e != "" ==> exists k :: 0 < k < |Basename(path)| && Basename(path)[k..] == e
    ensures e == "" <==>
      Basename(path) == ".." || forall k :: 0 < k < |Basename(path)| ==> Basename(path)[k] != '.'
  {
    var b := Basename(path);
    var dot := LastIndex(b, '.');
    if dot <= 0 || b == ".." then ""
    else
      assert forall i :: 0 <= i < |b[dot..]| ==> b[dot..][i] == b[dot + i];
      b[dot..]
  }

  /** ASCII lower-casing, letter by letter. */
  function LowerAscii(s: string): (r: string)
    ensures |r| == |s|
    ensures forall i :: 0 <= i < |s| ==>
      r[i] == (if 'A' <= s[i] <= 'Z' then (s[i] as int + 32) as char else s[i])
    decreases |s|
  {
    if |s| == 0 then ""
    else [if 'A' <= s[0] <= 'Z' then (s[0] as int + 32) as char else s[0]] + LowerAscii(s[1..])
  }

  /** What the filter tells multer: accept the file, or refuse it with an Error. */
  datatype Verdict = Accept | Refuse(message: string)

  /** fileFilter: the lower-cased extension of the original name and the
      mimetype as sent must both match the pattern. */
  function FileFilter(originalName: string, mimetype: string): (v: Verdict)
    ensures v == Accept <==> MatchesAllowed(LowerAscii(Extname(originalName))) && MatchesAllowed(mimetype)
    ensures v != Accept ==> v == Refuse(ImagesOnly)
  {
    if MatchesAllowed(mimetype) && MatchesAllowed(LowerAscii(Extname(originalName))) then Accept
    else Refuse(ImagesOnly)
  }

  /** The pattern matches exactly when one of the five words occurs somewhere. */
  lemma MatchesAllowedIff(s: string)
    ensures MatchesAllowed(s) <==>
      (exists i :: OccursAt(s, "jpeg", i)) || (exists i :: OccursAt(s, "jpg", i)) ||
      (exists i :: OccursAt(s, "png", i)) || (exists i :: OccursAt(s, "gif", i)) ||
      (exists i :: OccursAt(s, "webp", i))
  {
    ContainsIff(s, "jpeg");
    ContainsIff(s, "jpg");
    ContainsIff(s, "png");
    ContainsIff(s, "gif");
    ContainsIff(s, "webp");
  }

  /** A name made of a plain stem and ".PNG" has the extension ".PNG". */
  lemma ExtnameOfUpperPng(stem: string)
    requires |stem| > 0 && '.' !in stem && '/' !in stem
    ensures Extname(stem + ".PNG") == ".PNG"
  {
    var s := stem + ".PNG";
    assert forall i :: 0 <= i < |stem| ==> s[i] == stem[i];
    assert s[|stem|] == '.' && s[|stem| + 1] == 'P' && s[|stem| + 2] == 'N' && s[|stem| + 3] == 'G';
    assert TrimTrailingSlashes(s) == s;
    assert LastIndex(s, '/') == -1;
    assert Basename(s) == s[0..];
    assert LastIndex(s, '.') == |stem|;
    assert s[|stem|..] == ".PNG";
  }

  /** A string in which "png" occurs at position `i` matches the pattern. */
  lemma PngMatches(s: string, i: int)
    requires OccursAt(s, "png", i)
    ensures MatchesAllowed(s)
  {
    ContainsIff(s, "png");
  }

  /** An upper-case extension is accepted, since it is lower-cased first. */
  lemma UpperCaseExtensionAccepted(stem: string)
    requires |stem| > 0 && '.' !in stem && '/' !in stem
    ensures FileFilter(stem + ".PNG", "image/png") == Accept
  {
    ExtnameOfUpperPng(stem);
    LowerPngMatches();
    MimePngMatches();
  }

  lemma LowerPngMatches()
    ensures MatchesAllowed(LowerAscii(".PNG"))
  {
    LowerOfUpperPng();
    PngMatches(".png", 1);
  }

  lemma MimePngMatches()
    ensures MatchesAllowed("image/png")
  {
    PngMatches("image/png", 6);
  }

  lemma LowerOfUpperPng()
    ensures LowerAscii(".PNG") == ".png"
  {
    var r := LowerAscii(".PNG");
    assert r[0] == '.' && r[1] == 'p' && r[2] == 'n' && r[3] == 'g';
  }

  /** An upper-case mimetype is refused, since it is matched as given. */
  lemma UpperCaseMimetypeRefused()
    ensures FileFilter("a.png", "IMAGE/PNG") == Refuse(ImagesOnly)
  {
    var m := "IMAGE/PNG";
    assert forall i :: 0 <= i < |m| ==> 'A' <= m[i] <= 'Z' || m[i] == '/';
    NoOccurrenceWithoutFirst(m, "jpeg");
    NoOccurrenceWithoutFirst(m, "jpg");
    NoOccurrenceWithoutFirst(m, "png");
    NoOccurrenceWithoutFirst(m, "gif");
    NoOccurrenceWithoutFirst(m, "webp");
    assert !MatchesAllowed(m);
  }

  /** A dotfile named like an image has no extension, and is refused. */
  lemma DotfileRefused()
    ensures FileFilter(".png", "image/png") == Refuse(ImagesOnly)
  {
    assert TrimTrailingSlashes(".png") == ".png";
    assert LastIndex(".png", '/') == -1;
    var dot := LastIndex(".png", '.');
    assert ".png"[0] == '.' && ".png"[1] != '.' && ".png"[2] != '.' && ".png"[3] != '.';
    assert dot == 0;
    assert Extname(".png") == "";
  }
}
