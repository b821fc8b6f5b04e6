/** Classification of Drive files by MIME type and the tags derived from a
    file name (`mediaTypeFromMime` and `extractTags`, identical in
    api/drive/media.ts and api/drive/search.ts; the crawler inlines the same
    classification). */
module MediaKind {
  import opened Text
  import DriveQuery

  datatype MediaType = Photo | Video | Gif | Other {
    /** The string the handlers store and compare with the `type` filter. */
    function Name(): string {
      match this
      case Photo => "photo"
      case Video => "video"
      case Gif => "gif"
      case Other => "other"
    }
  }

  /** `mediaTypeFromMime`: total; gif only for exactly `image/gif`, then any
      other `image/` type is a photo, any `video/` type a video, all else other. */
  function MediaTypeFromMime(mime: string): (t: MediaType)
    ensures t == Gif <==> mime == "image/gif"
    ensures t == Photo <==> "image/" <= mime && mime != "image/gif"
    ensures t == Video <==> "video/" <= mime
    ensures t == Other <==> !("image/" <= mime) && !("video/" <= mime)
  {
    assert "image/" <= mime ==> !("video/" <= mime) by {
      if "image/" <= mime { assert mime[0] == 'i'; }
    }
    if mime == "image/gif" then Gif
    else if "image/" <= mime then Photo
    else if "video/" <= mime then Video
    else Other
  }

  /** A folder's MIME type would classify as other; the handlers test for
      folders before classifying. */
  lemma FolderMimeIsOther()
    ensures MediaTypeFromMime(DriveQuery.FolderMime) == Other
  {
    assert !("image/" <= DriveQuery.FolderMime) && !("video/" <= DriveQuery.FolderMime) by {
      assert DriveQuery.FolderMime[0] == 'a';
    }
  }

  // ---------------------------------------------------------------- tags

  /** The characters of the class `[a-z0-9]`. */
  predicate IsTagChar(c: char) { ('a' <= c <= 'z') || ('0' <= c <= '9') }

  /** The characters of the class `\w`. */
  predicate IsWordChar(c: char) {
    ('A' <= c <= 'Z') || ('a' <= c <= 'z') || ('0' <= c <= '9') || c == '_'
  }

  predicate IsTag(t: string) {
    |t| > 0 && forall i :: 0 <= i < |t| ==> IsTagChar(t[i])
  }

  /** Length of the longest prefix of `[a-z0-9]` characters. */
  function RunLength(s: string): (k: nat)
    ensures k <= |s|
    ensures forall i :: 0 <= i < k ==> IsTagChar(s[i])
    ensures k < |s| ==> !IsTagChar(s[k])
  {
    if s == [] || !IsTagChar(s[0]) then 0 else 1 + RunLength(s[1..])
  }

  /** `s.split(/[^a-z0-9]+/g).map(t => t.trim()).filter(Boolean)`: the pieces
      between separator runs are the maximal `[a-z0-9]` runs, plus empty pieces
      at the ends that the filter drops; `trim` changes none of them. */
  function Tokens(s: string): (ts: seq<string>)
    ensures forall t :: t in ts ==> IsTag(t)
    decreases |s|
  {
    if s == [] then []
    else if !IsTagChar(s[0]) then Tokens(s[1..])
    else
      var k := RunLength(s);
      [s[..k]] + Tokens(s[k..])
  }

  /** A match of `\b(19|20)\d{2}\b` starting at position `i`. */
  predicate YearAt(s: string, i: int) {
    && 0 <= i && i + 4 <= |s|
    && ((s[i] == '1' && s[i + 1] == '9') || (s[i] == '2' && s[i + 1] == '0'))
    && IsDigit(s[i + 2]) && IsDigit(s[i + 3])
    && (i == 0 || !IsWordChar(s[i - 1]))
    && (i + 4 == |s| || !IsWordChar(s[i + 4]))
  }

  ghost predicate IsYearMatch(s: string, y: string) {
    exists j :: YearAt(s, j) && y == s[j..j + 4]
  }

  /** `s.match(/\b(19|20)\d{2}\b/g)` scanning from position `i`: the leftmost
      match, then the search resumes after it. */
  function YearsFrom(s: string, i: nat): (ys: seq<string>)
    ensures forall k :: 0 <= k < |ys| ==> IsYearMatch(s, ys[k])
    decreases |s| - i
  {
    if i + 4 > |s| then []
    else if YearAt(s, i) then
      assert IsYearMatch(s, s[i..i + 4]);
      [s[i..i + 4]] + YearsFrom(s, i + 4)
    else YearsFrom(s, i + 1)
  }

  /** A maximal run of `[a-z0-9]` characters is one of the tokens. */
  lemma {:induction false} RunIsToken(s: string, i: nat, j: nat)
    requires i < j <= |s|
    requires forall k :: i <= k < j ==> IsTagChar(s[k])
    requires i == 0 || !IsTagChar(s[i - 1])
    requires j == |s| || !IsTagChar(s[j])
    ensures s[i..j] in Tokens(s)
    decreases |s|
  {
    if !IsTagChar(s[0]) {
      assert s[1..][i - 1..j - 1] == s[i..j];
      RunIsToken(s[1..], i - 1, j - 1);
    } else {
      var k := RunLength(s);
      if i == 0 {
        assert k == j;
      } else {
        assert i - 1 >= k;
        assert s[k..][i - k..j - k] == s[i..j];
        RunIsToken(s[k..], i - k, j - k);
      }
    }
  }

  /** Every year the regular expression finds is already a split token: the
      word boundaries around it are separators of the split. */
  lemma YearIsToken(s: string, i: nat)
    requires YearAt(s, i)
    ensures s[i..i + 4] in Tokens(s)
  {
    RunIsToken(s, i, i + 4);
  }

  lemma YearsAreTokens(s: string)
    ensures forall k :: 0 <= k < |YearsFrom(s, 0)| ==> YearsFrom(s, 0)[k] in Tokens(s)
  {
    var ys := YearsFrom(s, 0);
    forall k | 0 <= k < |ys| ensures ys[k] in Tokens(s) {
      assert IsYearMatch(s, ys[k]);
      var j :| YearAt(s, j) && ys[k] == s[j..j + 4];
      YearIsToken(s, j);
    }
  }

  /** Appending values that already occur does not change the de-duplication. */
  lemma {:induction false} DedupeAbsorbs(s: seq<string>, t: seq<string>)
    requires forall k :: 0 <= k < |t| ==> t[k] in s
    ensures Dedupe(s + t) == Dedupe(s)
    decreases |t|
  {
    if t == [] {
      assert s + t == s;
    } else {
      var init := t[..|t| - 1];
      DedupeAbsorbs(s, init);
      assert s + t == (s + init) + [t[|t| - 1]];
      DedupeSnoc(s + init, t[|t| - 1]);
    }
  }

  const MaxTags: nat := 30

  /** `extractTags`: at most 30 distinct lowercase `[a-z0-9]+` tokens of the
      name, in first-occurrence order; the year matches add nothing, so the
      result is the first 30 distinct split tokens. */
  function ExtractTags(name: string): (r: seq<string>)
    ensures |r| <= MaxTags
    ensures Distinct(r)
    ensures forall k :: 0 <= k < |r| ==> IsTag(r[k])
    ensures var d := Dedupe(Tokens(Lower(name)));
            r == d[..if |d| < MaxTags then |d| else MaxTags]
  {
    var base := Lower(name);
    var tokens := Tokens(base);
    var years := YearsFrom(base, 0);
    var uniq := Dedupe(tokens + years);
    YearsAreTokens(base);
    DedupeAbsorbs(tokens, years);
    uniq[..if |uniq| < MaxTags then |uniq| else MaxTags]
  }

  /** A name with at most 30 distinct tokens keeps all of them as tags. */
  lemma AllTokensKept(name: string, t: string)
    requires |Dedupe(Tokens(Lower(name)))| <= MaxTags
    requires t in Tokens(Lower(name))
    ensures t in ExtractTags(name)
  {
  }
}
