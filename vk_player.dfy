/**
 * `extractVKVideoId` of `components/vk-player.tsx`: the query string of the VK
 * embed player (`video_ext.php?oid=...&id=...`) from the several forms an admin
 * may paste, and the iframe address built from it.
 */
module VkPlayer {
  import opened Wrappers
  import Js

  /** The two groups of `/video(-?\d+)_(\d+)/`: owner id (maybe negative) and video id. */
  datatype VideoMatch = VideoMatch(owner: string, video: string)

  /**
   * The regular expression matched at the start of `s`. Both digit runs are
   * greedy and a digit is never `_`, so backtracking never finds another match:
   * the owner group is an optional `-` and the whole digit run after it, which
   * must be followed by `_` and at least one digit.
   */
  function MatchVideoAt(s: string): Option<VideoMatch> {
    if !Js.StartsWith(s, "video") then None
    else
      var j := if |s| > 5 && s[5] == '-' then 6 else 5;
      var k := DigitRunEnd(s, j);
      if k == j || k == |s| || s[k] != '_' then None
      else
        var e := DigitRunEnd(s, k + 1);
        if e == k + 1 then None else Some(VideoMatch(s[5..k], s[k + 1..e]))
  }

  /** Where the run of digits starting at index `i` ends. */
  function DigitRunEnd(s: string, i: nat): (e: nat)
    requires i <= |s|
    ensures i <= e <= |s|
    ensures forall t :: i <= t < e ==> Js.IsDigit(s[t])
    ensures e == |s| || !Js.IsDigit(s[e])
    decreases |s| - i
  {
    if i == |s| || !Js.IsDigit(s[i]) then i else DigitRunEnd(s, i + 1)
  }

  /** The run's end is the first non-digit at or after `i`. */
  lemma DigitRunEndIs(s: string, i: nat, e: nat)
    requires i <= e <= |s|
    requires forall t :: i <= t < e ==> Js.IsDigit(s[t])
    requires e == |s| || !Js.IsDigit(s[e])
    ensures DigitRunEnd(s, i) == e
  {
  }

  /** `url.match(re)`: the leftmost match. */
  function MatchVideo(s: string): Option<VideoMatch>
    decreases |s|
  {
    if MatchVideoAt(s).Some? then MatchVideoAt(s)
    else if s == [] then None
    else MatchVideo(s[1..])
  }

  /** The groups have the regex's shape: digits, the owner's after an optional `-`. */
  lemma MatchVideoAtShape(s: string)
    requires MatchVideoAt(s).Some?
    ensures var m := MatchVideoAt(s).value;
            |m.video| > 0 && Js.AllDigits(m.video) && |m.owner| > 0
            && (Js.AllDigits(m.owner) || (m.owner[0] == '-' && Js.AllDigits(m.owner[1..])))
  {
    var m := MatchVideoAt(s).value;
    var j := if |s| > 5 && s[5] == '-' then 6 else 5;
    var k := DigitRunEnd(s, j);
    var e := DigitRunEnd(s, k + 1);
    assert m.owner == s[5..k] && m.video == s[k + 1..e];
    assert forall t :: 0 <= t < |m.video| ==> m.video[t] == s[k + 1 + t];
    if j == 6 {
      assert forall t :: 0 <= t < |m.owner| - 1 ==> m.owner[1..][t] == s[6 + t];
    }
  }

  /** `s` starts with `video`, the owner group, `_` and the video group. */
  predicate ReadsMatch(s: string, m: VideoMatch) {
    var k := 5 + |m.owner|;
    k + 1 + |m.video| <= |s| && s[..5] == "video" && s[5..k] == m.owner && s[k] == '_'
    && s[k + 1..k + 1 + |m.video|] == m.video
  }

  /** A match at the start reads `video`, the owner group, `_` and the video group. */
  lemma MatchVideoAtText(s: string)
    requires MatchVideoAt(s).Some?
    ensures ReadsMatch(s, MatchVideoAt(s).value)
  {
  }

  /** The leftmost match occurs in the url, and its groups have the regex's shape. */
  lemma {:induction false} MatchVideoSpec(s: string)
    requires MatchVideo(s).Some?
    ensures exists i :: 0 <= i <= |s| && ReadsMatch(s[i..], MatchVideo(s).value)
    ensures var m := MatchVideo(s).value;
            |m.video| > 0 && Js.AllDigits(m.video) && |m.owner| > 0
            && (Js.AllDigits(m.owner) || (m.owner[0] == '-' && Js.AllDigits(m.owner[1..])))
    decreases |s|
  {
    if MatchVideoAt(s).Some? {
      MatchVideoAtShape(s);
      MatchVideoAtText(s);
      assert s[0..] == s;
    } else {
      MatchVideoSpec(s[1..]);
      var i :| 0 <= i <= |s[1..]| && ReadsMatch(s[1..][i..], MatchVideo(s).value);
      assert s[1..][i..] == s[i + 1..];
    }
  }

  /** No match can start inside a prefix without a `v`. */
  lemma {:induction false} MatchVideoSkip(p: string, rest: string)
    requires 'v' !in p
    ensures MatchVideo(p + rest) == MatchVideo(rest)
    decreases |p|
  {
    if p != [] {
      assert (p + rest)[0] == p[0];
      assert MatchVideoAt(p + rest).None?;
      assert (p + rest)[1..] == p[1..] + rest;
      MatchVideoSkip(p[1..], rest);
    } else {
      assert p + rest == rest;
    }
  }

  /** `extractVKVideoId(url)`. */
  function ExtractVideoId(url: string): string {
    if Js.Includes(url, "video_ext.php") then
      var parts := Js.Split(url, '?');
      if |parts| > 1 then parts[1] else ""
    else if Js.Includes(url, "oid=") && Js.Includes(url, "id=") then url
    else
      match MatchVideo(url)
      case Some(m) => "oid=" + m.owner + "&id=" + m.video
      case None => url
  }

  /** The second piece of a split is the text between the first separator and the next one, or the end. */
  lemma SplitSecond(a: string, q: string, rest: string)
    requires Js.Excludes(a, '?') && Js.Excludes(q, '?')
    requires rest == [] || rest[0] == '?'
    ensures |Js.Split(a + ['?'] + (q + rest), '?')| > 1
    ensures Js.Split(a + ['?'] + (q + rest), '?')[1] == q
  {
    Js.SplitAtSep(a, '?', q + rest);
    Js.SplitPrefix(q, '?', rest);
    FirstPieceEmpty(rest);
    assert Js.Split(q + rest, '?')[0] == q;
  }

  /** Text that is empty or starts with `?` has an empty first piece. */
  lemma FirstPieceEmpty(rest: string)
    requires rest == [] || rest[0] == '?'
    ensures Js.Split(rest, '?')[0] == ""
  {
  }

  /**
   * An embed url gives the text between its first `?` and the next one (or the
   * end); without any `?` it gives "".
   */
  lemma EmbedUrlQuery(a: string, q: string, rest: string)
    requires Js.Includes(a + ['?'] + (q + rest), "video_ext.php")
    requires Js.Excludes(a, '?') && Js.Excludes(q, '?')
    requires rest == [] || rest[0] == '?'
    ensures ExtractVideoId(a + ['?'] + (q + rest)) == q
  {
    SplitSecond(a, q, rest);
  }

  lemma EmbedUrlWithoutQuery(url: string)
    requires Js.Includes(url, "video_ext.php") && Js.Excludes(url, '?')
    ensures ExtractVideoId(url) == ""
  {
    Js.SplitNoSep(url, '?');
  }

  /** `includes("oid=")` implies `includes("id=")`, so the second test never decides anything. */
  lemma OidImpliesId(url: string)
    requires Js.Includes(url, "oid=")
    ensures Js.Includes(url, "id=")
  {
    assert "oid=" == "o" + "id=";
    Js.IncludesSuffix(url, "o", "id=");
  }

  /** A url naming the owner and the video outright is used as it is. */
  lemma OidUrlKept(url: string)
    requires !Js.Includes(url, "video_ext.php") && Js.Includes(url, "oid=")
    ensures ExtractVideoId(url) == url
  {
    OidImpliesId(url);
  }

  /** Digit runs contain no other character. */
  lemma DigitsExclude(d: string, c: char)
    requires Js.AllDigits(d) && !Js.IsDigit(c)
    ensures c !in d
  {
  }

  /**
   * Conversely, `video`, an optional `-`, a digit run, `_` and a digit run,
   * followed by anything but a digit, is matched with exactly these groups.
   */
  lemma MatchVideoAtOf(sign: string, o: string, v: string, rest: string)
    requires sign == "" || sign == "-"
    requires |o| > 0 && Js.AllDigits(o) && |v| > 0 && Js.AllDigits(v)
    requires rest == [] || !Js.IsDigit(rest[0])
    ensures MatchVideoAt("video" + (sign + (o + ("_" + (v + rest))))) == Some(VideoMatch(sign + o, v))
  {
    Layout(sign, o, v, rest);
    MatchOfLayout("video" + (sign + (o + ("_" + (v + rest)))), sign, o, v, rest);
  }

  /** The match read from a text laid out as `Layout` states. */
  lemma MatchOfLayout(s: string, sign: string, o: string, v: string, rest: string)
    requires sign == "" || sign == "-"
    requires |o| > 0 && Js.AllDigits(o) && |v| > 0 && Js.AllDigits(v)
    requires rest == [] || !Js.IsDigit(rest[0])
    requires var k := 5 + |sign| + |o|;
             |s| == k + 1 + |v| + |rest| && s[..5] == "video" && s[k] == '_'
             && (forall t :: 0 <= t < |sign| + |o| ==> s[5 + t] == (sign + o)[t])
             && (forall t :: 0 <= t < |v| ==> s[k + 1 + t] == v[t])
             && (rest == [] || s[k + 1 + |v|] == rest[0])
    ensures MatchVideoAt(s) == Some(VideoMatch(sign + o, v))
  {
    var k := 5 + |sign| + |o|;
    RunsOfLayout(s, sign, o, v, rest);
    SliceIs(s, 5, sign + o);
    SliceIs(s, k + 1, v);
    MatchVideoAtIs(s, 5 + |sign|, k, k + 1 + |v|);
  }

  /** In such a text the sign is read as the regex reads it, and both digit runs end where the groups do. */
  lemma RunsOfLayout(s: string, sign: string, o: string, v: string, rest: string)
    requires sign == "" || sign == "-"
    requires |o| > 0 && Js.AllDigits(o) && |v| > 0 && Js.AllDigits(v)
    requires rest == [] || !Js.IsDigit(rest[0])
    requires var k := 5 + |sign| + |o|;
             |s| == k + 1 + |v| + |rest| && s[..5] == "video" && s[k] == '_'
             && (forall t :: 0 <= t < |sign| + |o| ==> s[5 + t] == (sign + o)[t])
             && (forall t :: 0 <= t < |v| ==> s[k + 1 + t] == v[t])
             && (rest == [] || s[k + 1 + |v|] == rest[0])
    ensures var j := 5 + |sign|;
            var k := j + |o|;
            Js.StartsWith(s, "video") && j == (if |s| > 5 && s[5] == '-' then 6 else 5)
            && DigitRunEnd(s, j) == k && DigitRunEnd(s, k + 1) == k + 1 + |v|
  {
    var j := 5 + |sign|;
    var k := j + |o|;
    var e := k + 1 + |v|;
    assert forall t :: j <= t < k ==> s[t] == o[t - j] by {
      forall t | j <= t < k ensures s[t] == o[t - j] {
        assert s[5 + (t - 5)] == (sign + o)[t - 5];
      }
    }
    DigitRunEndIs(s, j, k);
    assert forall t :: k + 1 <= t < e ==> Js.IsDigit(s[t]) by {
      forall t | k + 1 <= t < e ensures Js.IsDigit(s[t]) {
        assert s[k + 1 + (t - k - 1)] == v[t - k - 1];
      }
    }
    DigitRunEndIs(s, k + 1, e);
    assert (|s| > 5 && s[5] == '-') <==> sign == "-" by {
      assert s[5 + 0] == (sign + o)[0];
    }
  }

  /** Where each part of `video<sign><o>_<v><rest>` sits. */
  lemma Layout(sign: string, o: string, v: string, rest: string)
    ensures var s := "video" + (sign + (o + ("_" + (v + rest))));
            var k := 5 + |sign| + |o|;
            |s| == k + 1 + |v| + |rest| && s[..5] == "video" && s[k] == '_'
            && (forall t :: 0 <= t < |sign| + |o| ==> s[5 + t] == (sign + o)[t])
            && (forall t :: 0 <= t < |v| ==> s[k + 1 + t] == v[t])
            && (rest == [] || s[k + 1 + |v|] == rest[0])
  {
    var s := "video" + ((sign + o) + ("_" + (v + rest)));
    assert "video" + (sign + (o + ("_" + (v + rest)))) == s;
  }

  /** `MatchVideoAt` once both digit runs are known. */
  lemma MatchVideoAtIs(s: string, j: nat, k: nat, e: nat)
    requires Js.StartsWith(s, "video") && j == (if |s| > 5 && s[5] == '-' then 6 else 5)
    requires j < k < |s| && DigitRunEnd(s, j) == k && s[k] == '_'
    requires k + 1 < e && DigitRunEnd(s, k + 1) == e
    ensures MatchVideoAt(s) == Some(VideoMatch(s[5..k], s[k + 1..e]))
  {
  }

  /** The slice of `s` at `i` that agrees with `w` index by index is `w`. */
  lemma SliceIs(s: string, i: nat, w: string)
    requires i + |w| <= |s|
    requires forall t :: 0 <= t < |w| ==> s[i + t] == w[t]
    ensures s[i..i + |w|] == w
  {
  }

  /** The page address `https://vk.com/video-<o>_<v>` of a video. */
  function PageUrl(o: string, v: string): string {
    "https://" + ("v" + ("k.com/" + ("video" + ("-" + (o + ("_" + v))))))
  }

  /** A page address is not an embed address and does not name the owner outright. */
  lemma PageUrlNotEmbed(o: string, v: string)
    requires Js.AllDigits(o) && Js.AllDigits(v)
    ensures !Js.Includes(PageUrl(o, v), "video_ext.php")
    ensures !Js.Includes(PageUrl(o, v), "oid=")
  {
    PageUrlLacks(o, v, 'x');
    PageUrlLacks(o, v, '=');
    assert "video_ext.php"[7] == 'x' && "oid="[3] == '=';
    Js.NotIncludesMissingChar(PageUrl(o, v), "video_ext.php", 7);
    Js.NotIncludesMissingChar(PageUrl(o, v), "oid=", 3);
  }

  lemma PageUrlLacks(o: string, v: string, c: char)
    requires Js.AllDigits(o) && Js.AllDigits(v) && (c == 'x' || c == '=')
    ensures c !in PageUrl(o, v)
  {
    DigitsExclude(o, c);
    DigitsExclude(v, c);
  }

  /** The leftmost match in a page address is the one in its path. */
  lemma PageUrlMatch(o: string, v: string)
    requires |o| > 0 && Js.AllDigits(o) && |v| > 0 && Js.AllDigits(v)
    ensures MatchVideo(PageUrl(o, v)) == Some(VideoMatch("-" + o, v))
  {
    var w := "video" + ("-" + (o + ("_" + v)));
    HostSkipped(w);
    assert v + [] == v;
    MatchVideoAtOf("-", o, v, []);
  }

  /** No match starts in `https://vk.com/`, although it holds a `v`. */
  lemma HostSkipped(w: string)
    ensures MatchVideo("https://" + ("v" + ("k.com/" + w))) == MatchVideo(w)
  {
    MatchVideoSkip("https://", "v" + ("k.com/" + w));
    SkipV("k.com/" + w);
    DomainSkipped(w);
  }

  lemma DomainSkipped(w: string)
    ensures MatchVideo("k.com/" + w) == MatchVideo(w)
  {
    var p := "k.com/";
    assert p == ['k'] + ['.'] + ['c'] + ['o'] + ['m'] + ['/'];
    MatchVideoSkip(p, w);
  }

  /** No match starts at a `v` that is not followed by `i`. */
  lemma SkipV(t: string)
    requires |t| > 0 && t[0] != 'i'
    ensures MatchVideo("v" + t) == MatchVideo(t)
  {
    var s := "v" + t;
    assert !Js.StartsWith(s, "video") by {
      if |s| >= 5 {
        assert s[..5][1] == t[0] && "video"[1] == 'i';
      }
    }
    assert s[1..] == t;
  }

  /**
   * A page address with the video in its path, such as
   * `https://vk.com/video-123_456`, becomes the embed query `oid=-123&id=456`.
   */
  lemma PageUrlExtract(o: string, v: string)
    requires |o| > 0 && Js.AllDigits(o) && |v| > 0 && Js.AllDigits(v)
    ensures ExtractVideoId(PageUrl(o, v)) == "oid=" + ("-" + o) + "&id=" + v
  {
    PageUrlNotEmbed(o, v);
    PageUrlMatch(o, v);
  }

  /** The regex branch produces fixed points: its output already names owner and video. */
  lemma RegexOutputIsFixedPoint(url: string)
    requires !Js.Includes(url, "video_ext.php") && !(Js.Includes(url, "oid=") && Js.Includes(url, "id="))
    requires MatchVideo(url).Some?
    ensures ExtractVideoId(ExtractVideoId(url)) == ExtractVideoId(url)
  {
    MatchVideoSpec(url);
    var m := MatchVideo(url).value;
    QueryKept(m.owner, m.video);
  }

  /** An `oid=...&id=...` text built from the regex's groups is used as it is. */
  lemma QueryKept(owner: string, video: string)
    requires Js.AllDigits(video)
    requires Js.AllDigits(owner) || (|owner| > 0 && owner[0] == '-' && Js.AllDigits(owner[1..]))
    ensures ExtractVideoId("oid=" + owner + "&id=" + video) == "oid=" + owner + "&id=" + video
  {
    var q := "oid=" + owner + "&id=" + video;
    if Js.AllDigits(owner) {
      DigitsExclude(owner, 'v');
    } else {
      DigitsExclude(owner[1..], 'v');
      assert owner == [owner[0]] + owner[1..];
    }
    DigitsExclude(video, 'v');
    assert 'v' !in q;
    assert "video_ext.php"[0] == 'v';
    Js.NotIncludesMissingChar(q, "video_ext.php", 0);
    assert q[..4] == "oid=";
    assert Js.StartsWith(q, "oid=");
    OidUrlKept(q);
  }

  /** The iframe is only built for a non-empty id, on the embed player's address. */
  function IframeSrc(videoUrl: string): (src: Option<string>)
    ensures src.Some? <==> ExtractVideoId(videoUrl) != ""
    ensures src.Some? ==> src.value == "https://vk.com/video_ext.php?" + ExtractVideoId(videoUrl)
  {
    var id := ExtractVideoId(videoUrl);
    if id != "" then Some("https://vk.com/video_ext.php?" + id) else None
  }

  /** A page address gets its embed address; an embed address without a query gets none. */
  lemma IframeSrcExamples(o: string, v: string, url: string)
    requires |o| > 0 && Js.AllDigits(o) && |v| > 0 && Js.AllDigits(v)
    requires Js.Includes(url, "video_ext.php") && Js.Excludes(url, '?')
    ensures IframeSrc(PageUrl(o, v)) == Some("https://vk.com/video_ext.php?" + ("oid=" + ("-" + o) + "&id=" + v))
    ensures IframeSrc(url).None?
  {
    PageUrlExtract(o, v);
    EmbedUrlWithoutQuery(url);
  }
}
