/**
 * The object-key and public-URL builders of storage/spaces.py, with the
 * string helpers they rely on (`os.path.splitext` on POSIX paths,
 * `str.strip('/')` and `str.rstrip('/')`). The clock and the random UUID are
 * parameters: `date` is the formatted `YYYY/MM/DD` string and `hex` the UUID
 * hex digits.
 */
module Spaces {
  import opened Wrappers

  /** `SPACES_BUCKET` and `SPACES_REGION` when the environment does not set them. */
  const DEFAULT_BUCKET: string := "cod5"
  const DEFAULT_REGION: string := "nyc3"

  /** The extension used when the filename has none. */
  const DEFAULT_EXT: string := ".mp4"

  // ---------------------------------------------------------------------
  // String helpers
  // ---------------------------------------------------------------------

  /** The last index below j holding c, or -1. */
  function LastBefore(s: string, c: char, j: nat): (i: int)
    requires j <= |s|
    ensures -1 <= i < j
    ensures i >= 0 ==> s[i] == c
    ensures forall k :: i < k < j ==> s[k] != c
  {
    if j == 0 then -1
    else if s[j - 1] == c then j - 1
    else LastBefore(s, c, j - 1)
  }

  /** `s.rfind(c)`: the last index holding c, or -1. */
  function RFind(s: string, c: char): (i: int)
    ensures -1 <= i < |s|
    ensures i >= 0 ==> s[i] == c
    ensures forall k :: i < k < |s| ==> s[k] != c
  {
    LastBefore(s, c, |s|)
  }

  /** Some character of `s[lo..hi]` is not a dot. */
  predicate HasNonDot(s: string, lo: int, hi: int)
    requires 0 <= lo && hi <= |s|
  {
    exists k :: lo <= k < hi && s[k] != '.'
  }

  /**
   * `posixpath.splitext`: the extension starts at the last dot, provided
   * that dot comes after the last '/' and the final path component does
   * not consist only of dots up to it (so ".bashrc" has no extension).
   */
  function SplitExt(p: string): (r: (string, string))
    ensures r.0 + r.1 == p
  {
    var sepIndex := RFind(p, '/');
    var dotIndex := RFind(p, '.');
    if dotIndex > sepIndex && HasNonDot(p, sepIndex + 1, dotIndex)
    then (p[..dotIndex], p[dotIndex..])
    else (p, "")
  }

  /** The first index from i on that does not hold '/' (or |s|). */
  function SkipSlashes(s: string, i: nat): (j: nat)
    requires i <= |s|
    ensures i <= j <= |s|
    ensures j == |s| || s[j] != '/'
    ensures forall k :: i <= k < j ==> s[k] == '/'
    decreases |s| - i
  {
    if i < |s| && s[i] == '/' then SkipSlashes(s, i + 1) else i
  }

  /** The end of `s[lo..hi]` once its trailing '/' are dropped. */
  function DropSlashes(s: string, lo: nat, hi: nat): (j: nat)
    requires lo <= hi <= |s|
    ensures lo <= j <= hi
    ensures j == lo || s[j - 1] != '/'
    ensures forall k :: j <= k < hi ==> s[k] == '/'
  {
    if lo < hi && s[hi - 1] == '/' then DropSlashes(s, lo, hi - 1) else hi
  }

  /** `s.rstrip('/')`. */
  function RStrip(s: string): (r: string)
    ensures |r| <= |s| && r == s[..|r|]
    ensures r == [] || r[|r| - 1] != '/'
    ensures forall k :: |r| <= k < |s| ==> s[k] == '/'
  {
    s[..DropSlashes(s, 0, |s|)]
  }

  /** `s.strip('/')`: what lies between the leading and the trailing run of '/'. */
  function Strip(s: string): (r: string)
    ensures r == [] || (r[0] != '/' && r[|r| - 1] != '/')
  {
    var i := SkipSlashes(s, 0);
    s[i..DropSlashes(s, i, |s|)]
  }

  // ---------------------------------------------------------------------
  // make_key and public_url_for
  // ---------------------------------------------------------------------

  /** `os.path.splitext(filename)[1] or ".mp4"`. */
  function KeyExtension(filename: string): string {
    var ext := SplitExt(filename).1;
    if ext == "" then DEFAULT_EXT else ext
  }

  /** `make_key`: `<prefix without surrounding '/'>/<date>/<hex><ext>`. */
  function MakeKey(prefix: string, filename: string, date: string, hex: string): string {
    Strip(prefix) + "/" + date + "/" + hex + KeyExtension(filename)
  }

  /**
   * `public_url_for`: under a non-empty CDN base (trailing '/' removed) when
   * one is configured, else the bucket's default Spaces URL.
   */
  function PublicUrlFor(key: string, cdnBase: Option<string>, bucket: string, region: string): string {
    if cdnBase.Some? && cdnBase.value != ""
    then RStrip(cdnBase.value) + "/" + key
    else "https://" + bucket + "." + region + ".digitaloceanspaces.com/" + key
  }

  // ---------------------------------------------------------------------
  // Properties
  // ---------------------------------------------------------------------

  /**
   * What `splitext` returns: an empty extension, or one that starts with the
   * last dot of the path, lies after the last '/', and leaves a root whose
   * final component is not made only of dots.
   */
  lemma SplitExtShape(p: string)
    ensures var (root, ext) := SplitExt(p);
            ext == "" || (
              && ext[0] == '.'
              && (forall i :: 0 <= i < |ext| ==> ext[i] != '/')
              && (forall i :: 1 <= i < |ext| ==> ext[i] != '.')
              && HasNonDot(root, RFind(root, '/') + 1, |root|))
  {
    var sepIndex := RFind(p, '/');
    var dotIndex := RFind(p, '.');
    if dotIndex > sepIndex && HasNonDot(p, sepIndex + 1, dotIndex) {
      var root, ext := p[..dotIndex], p[dotIndex..];
      forall i | 0 <= i < |ext| ensures ext[i] != '/' {
        assert ext[i] == p[dotIndex + i];
      }
      forall i | 1 <= i < |ext| ensures ext[i] != '.' {
        assert ext[i] == p[dotIndex + i];
      }
      RFindPrefix(p, '/', dotIndex);
      var k :| sepIndex + 1 <= k < dotIndex && p[k] != '.';
      assert root[k] == p[k];
    }
  }

  /**
   * The converse: a dot followed by neither dots nor '/', after a root whose
   * final component has a character other than a dot, is split off as the
   * extension ("video.mov" gives ".mov").
   */
  lemma SplitExtOf(root: string, ext: string)
    requires |ext| > 0 && ext[0] == '.'
    requires forall i :: 1 <= i < |ext| ==> ext[i] != '.' && ext[i] != '/'
    requires HasNonDot(root, RFind(root, '/') + 1, |root|)
    ensures SplitExt(root + ext) == (root, ext)
  {
    var p := root + ext;
    var n := |root|;
    assert p[n] == '.';
    forall k | n < k < |p| ensures p[k] != '.' && p[k] != '/' {
      assert p[k] == ext[k - n];
    }
    var dotIndex := RFind(p, '.');
    assert dotIndex == n;
    var sepIndex := RFind(p, '/');
    assert sepIndex < n;
    RFindPrefix(p, '/', n);
    assert p[..n] == root;
    var k :| RFind(root, '/') + 1 <= k < n && root[k] != '.';
    assert p[k] == root[k];
    assert HasNonDot(p, sepIndex + 1, dotIndex);
    assert p[..dotIndex] == root && p[dotIndex..] == ext;
  }

  /** Searching below n finds the same index in a prefix of at least n characters. */
  lemma {:induction false} LastBeforePrefix(p: string, c: char, n: nat, j: nat)
    requires j <= n <= |p|
    ensures LastBefore(p[..n], c, j) == LastBefore(p, c, j)
  {
    if j > 0 {
      assert p[..n][j - 1] == p[j - 1];
      LastBeforePrefix(p, c, n, j - 1);
    }
  }

  /** The last c of p, when it lies before n, is also the last c of `p[..n]`. */
  lemma {:induction false} LastBeforeCut(p: string, c: char, n: nat, j: nat)
    requires n <= j <= |p| && LastBefore(p, c, j) < n
    ensures LastBefore(p, c, j) == LastBefore(p, c, n)
    decreases j
  {
    if j > n {
      LastBeforeCut(p, c, n, j - 1);
    }
  }

  lemma RFindPrefix(p: string, c: char, n: nat)
    requires n <= |p| && RFind(p, c) < n
    ensures RFind(p[..n], c) == RFind(p, c)
  {
    LastBeforePrefix(p, c, n, n);
    LastBeforeCut(p, c, n, |p|);
  }

  /**
   * Stripping removes the leading and the trailing run of '/' and nothing
   * else: the result is the slice of s between them.
   */
  lemma StripShape(s: string)
    ensures var r := Strip(s);
            var i := SkipSlashes(s, 0);
            && i + |r| <= |s|
            && s[i..i + |r|] == r
            && (forall k :: 0 <= k < i ==> s[k] == '/')
            && (forall k :: i + |r| <= k < |s| ==> s[k] == '/')
  {
  }

  /** Stripping twice is stripping once. */
  lemma StripIdempotent(s: string)
    ensures Strip(Strip(s)) == Strip(s)
  {
    var r := Strip(s);
    assert SkipSlashes(r, 0) == 0;
    if r != [] {
      assert DropSlashes(r, 0, |r|) == |r|;
    }
  }

  /**
   * The key is the stripped prefix, the date and the hex id joined by '/',
   * followed by a non-empty extension: the filename's own, or ".mp4".
   */
  lemma MakeKeyShape(prefix: string, filename: string, date: string, hex: string)
    ensures var key := MakeKey(prefix, filename, date, hex);
            var p := Strip(prefix);
            var ext := KeyExtension(filename);
            && ext != ""
            && key[..|p|] == p
            && key[|p|] == '/'
            && key[|p| + 1..|p| + 1 + |date|] == date
            && key[|p| + 1 + |date|] == '/'
            && key[|p| + 2 + |date|..|p| + 2 + |date| + |hex|] == hex
            && |key| == |p| + 2 + |date| + |hex| + |ext|
            && (p == [] || (p[0] != '/' && p[|p| - 1] != '/'))
            && key[|key| - |ext|..] == ext
            && (SplitExt(filename).1 == "" ==> ext == DEFAULT_EXT)
            && (SplitExt(filename).1 != "" ==> filename == SplitExt(filename).0 + ext)
  {
    var p := Strip(prefix);
    var ext := KeyExtension(filename);
    var head := p + "/" + date + "/" + hex;
    ConcatParts(head, ext);
    ConcatParts(p + "/" + date + "/", hex);
    ConcatParts(p + "/" + date, "/");
    ConcatParts(p + "/", date);
    ConcatParts(p, "/");
  }

  /** With the environment unset, objects are served from bucket "cod5" in region "nyc3". */
  lemma DefaultBucketUrl(key: string)
    ensures PublicUrlFor(key, None, DEFAULT_BUCKET, DEFAULT_REGION) ==
            "https://" + "cod5" + "." + "nyc3" + ".digitaloceanspaces.com/" + key
  {
  }

  /** A concatenation splits back into its two parts. */
  lemma ConcatParts(a: string, b: string)
    ensures (a + b)[..|a|] == a && (a + b)[|a|..] == b
  {
  }

  /** A filename with no dot anywhere gets the ".mp4" extension. */
  lemma NoDotMeansMp4(filename: string)
    requires forall i :: 0 <= i < |filename| ==> filename[i] != '.'
    ensures KeyExtension(filename) == DEFAULT_EXT
  {
    assert RFind(filename, '.') == -1;
  }

  /** Under a CDN base the URL is the base with trailing '/' removed, one '/', then the key. */
  lemma CdnUrlShape(key: string, base: string, bucket: string, region: string)
    requires base != ""
    ensures var url := PublicUrlFor(key, Some(base), bucket, region);
            var b := RStrip(base);
            && url == b + "/" + key
            && url[|url| - |key| - 1..] == "/" + key
            && base[..|b|] == b
            && (b == [] || url[|b| - 1] != '/')
  {
    var url := PublicUrlFor(key, Some(base), bucket, region);
    var b := RStrip(base);
    assert url == b + ("/" + key);
  }

  /** Without a CDN base (absent or empty) the URL is the bucket's default Spaces address. */
  lemma DefaultUrlShape(key: string, cdnBase: Option<string>, bucket: string, region: string)
    requires cdnBase.None? || cdnBase.value == ""
    ensures var url := PublicUrlFor(key, cdnBase, bucket, region);
            var host := bucket + "." + region + ".digitaloceanspaces.com";
            && url == "https://" + host + "/" + key
            && url[..8] == "https://"
            && url[|url| - |key|..] == key
  {
    var url := PublicUrlFor(key, cdnBase, bucket, region);
    var host := bucket + "." + region + ".digitaloceanspaces.com";
    assert url == "https://" + (host + "/" + key);
    assert url == ("https://" + host + "/") + key;
  }
}
