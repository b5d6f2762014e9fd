/** The service layer: the TikTok URL check and the lookup that turns the
    upstream API's answer into one canonical video record or an error.

    The HTTP request itself is not modelled. A lookup receives what the request
    produced (a rejected request, or a status and a body that did or did not
    parse as JSON) together with the current time, so that the lookup is a
    function of its inputs. */
module TikTokApi {
  import opened Wrappers
  import opened JsValues
  import opened JsText
  import opened Types

  // ==== URL validation ====

  /** The alternatives of `(https?:\/\/)?`, the empty one first. */
  const Schemes: seq<string> := ["", "http://", "https://"]

  /** The alternatives of `((www|vm|vt|v|m)\.)?`, the empty one first. */
  const Subdomains: seq<string> := ["", "www.", "vm.", "vt.", "v.", "m."]

  const Host: string := "tiktok.com/"

  /** The prefix a match made of scheme `i`, subdomain `j` and the host reads. */
  function PatternPrefix(i: nat, j: nat): string
    requires i < |Schemes| && j < |Subdomains|
  {
    Schemes[i] + Subdomains[j] + Host
  }

  /** The language of `/^(https?:\/\/)?((www|vm|vt|v|m)\.)?tiktok\.com\/.*$/i`,
      stated as the regular expression reads: lower-cased, the input is one of
      the admitted prefixes followed by characters that are not line
      terminators (`.` excludes them, and `$` without the `m` flag only matches
      at the end of the input). */
  ghost predicate InUrlLanguage(s: string) {
    exists i, j :: 0 <= i < |Schemes| && 0 <= j < |Subdomains| && MatchesWith(AsciiLower(s), i, j)
  }

  ghost predicate MatchesWith(l: string, i: nat, j: nat)
    requires i < |Schemes| && j < |Subdomains|
  {
    HasPrefix(l, PatternPrefix(i, j)) && NoLineTerminator(l[|PatternPrefix(i, j)|..])
  }

  /** Length of the scheme the pattern consumes from lower-cased text. */
  function SchemeLength(l: string): nat {
    if HasPrefix(l, "https://") then 8
    else if HasPrefix(l, "http://") then 7
    else 0
  }

  /** Length of the subdomain the pattern consumes from lower-cased text. */
  function SubdomainLength(a: string): nat {
    if HasPrefix(a, "www.") then 4
    else if HasPrefix(a, "vm.") || HasPrefix(a, "vt.") then 3
    else if HasPrefix(a, "v.") || HasPrefix(a, "m.") then 2
    else 0
  }

  /** The regular expression's `test`. No alternative of an optional group is
      a prefix of another, nor of what may follow the group, so consuming the
      matching alternative never needs to be undone. */
  function PatternTest(s: string): bool {
    var l := AsciiLower(s);
    var a := l[SchemeLength(l)..];
    var b := a[SubdomainLength(a)..];
    HasPrefix(b, Host) && NoLineTerminator(b[|Host|..])
  }

  /** The deterministic recogniser accepts exactly the pattern's language. */
  lemma PatternTestCorrect(s: string)
    ensures PatternTest(s) <==> InUrlLanguage(s)
  {
    PatternTestSound(AsciiLower(s));
    PatternTestComplete(s);
  }

  lemma PrefixChar(l: string, p: string, k: nat)
    requires HasPrefix(l, p) && k < |p|
    ensures l[k] == p[k]
  {
    assert l[..|p|][k] == l[k];
  }

  lemma PrefixConcat(l: string, p: string, q: string)
    ensures HasPrefix(l, p + q) <==> HasPrefix(l, p) && HasPrefix(l[|p|..], q)
    ensures HasPrefix(l, p + q) ==> l[|p + q|..] == l[|p|..][|q|..]
  {
    if HasPrefix(l, p) && HasPrefix(l[|p|..], q) {
      assert l[..|p + q|] == l[..|p|] + l[|p|..][..|q|];
    }
    if HasPrefix(l, p + q) {
      assert l[..|p|] == (p + q)[..|p|];
      assert l[|p|..][..|q|] == l[..|p + q|][|p|..];
    }
  }

  /** The scheme alternative the recogniser consumes. */
  function SchemeIndex(l: string): (i: nat)
    ensures i < |Schemes| && |Schemes[i]| == SchemeLength(l)
    ensures HasPrefix(l, Schemes[i])
  {
    if HasPrefix(l, "https://") then 2
    else if HasPrefix(l, "http://") then 1
    else 0
  }

  /** The subdomain alternative the recogniser consumes. */
  function SubdomainIndex(a: string): (j: nat)
    ensures j < |Subdomains| && |Subdomains[j]| == SubdomainLength(a)
    ensures HasPrefix(a, Subdomains[j])
  {
    if HasPrefix(a, "www.") then 1
    else if HasPrefix(a, "vm.") then 2
    else if HasPrefix(a, "vt.") then 3
    else if HasPrefix(a, "v.") then 4
    else if HasPrefix(a, "m.") then 5
    else 0
  }

  lemma PatternTestSound(l: string)
    ensures var a := l[SchemeLength(l)..]; var b := a[SubdomainLength(a)..];
      HasPrefix(b, Host) && NoLineTerminator(b[|Host|..]) ==>
      exists i, j :: 0 <= i < |Schemes| && 0 <= j < |Subdomains| && MatchesWith(l, i, j)
  {
    var a := l[SchemeLength(l)..];
    var b := a[SubdomainLength(a)..];
    if HasPrefix(b, Host) && NoLineTerminator(b[|Host|..]) {
      var i := SchemeIndex(l);
      var j := SubdomainIndex(a);
      PrefixConcat(a, Subdomains[j], Host);
      PrefixConcat(l, Schemes[i], Subdomains[j] + Host);
      assert Schemes[i] + (Subdomains[j] + Host) == PatternPrefix(i, j);
      assert MatchesWith(l, i, j);
    }
  }

  /** Whatever scheme alternative a match uses is the one the recogniser
      consumes: what follows the scheme never starts with `h`, and `http://`
      differs from `https://` at its fifth character. */
  lemma SchemeForced(l: string, i: nat)
    requires i < |Schemes| && HasPrefix(l, Schemes[i])
    requires |l| > |Schemes[i]| && l[|Schemes[i]|] != 'h'
    ensures SchemeLength(l) == |Schemes[i]|
  {
    if i == 1 {
      PrefixChar(l, "http://", 4);
      if HasPrefix(l, "https://") { PrefixChar(l, "https://", 4); }
    }
  }

  /** Likewise for the subdomain: what follows it is `tiktok.com/`, and the
      alternatives differ in their first two characters. */
  lemma SubdomainForced(a: string, j: nat)
    requires j < |Subdomains| && HasPrefix(a, Subdomains[j] + Host)
    ensures SubdomainLength(a) == |Subdomains[j]|
  {
    var q := Subdomains[j] + Host;
    PrefixChar(a, q, 0);
    PrefixChar(a, q, 1);
    PrefixConcat(a, Subdomains[j], Host);
    var alternatives := ["www.", "vm.", "vt.", "v.", "m."];
    forall p | p in alternatives && HasPrefix(a, p)
      ensures a[0] == p[0] && a[1] == p[1]
    {
      PrefixChar(a, p, 0);
      PrefixChar(a, p, 1);
    }
  }

  lemma PatternTestComplete(s: string)
    ensures var l := AsciiLower(s); var a := l[SchemeLength(l)..]; var b := a[SubdomainLength(a)..];
      InUrlLanguage(s) ==> HasPrefix(b, Host) && NoLineTerminator(b[|Host|..])
  {
    var l := AsciiLower(s);
    if InUrlLanguage(s) {
      var i, j :| 0 <= i < |Schemes| && 0 <= j < |Subdomains| && MatchesWith(l, i, j);
      var q := Subdomains[j] + Host;
      assert Schemes[i] + q == PatternPrefix(i, j);
      PrefixConcat(l, Schemes[i], q);
      var a := l[|Schemes[i]|..];
      PrefixChar(a, q, 0);
      SchemeForced(l, i);
      SubdomainForced(a, j);
      PrefixConcat(a, Subdomains[j], Host);
    }
  }

  /** `isValidTikTokUrl(url)`: trim, reject the empty string, then test the
      pattern. */
  function IsValidTikTokUrl(url: string): bool {
    var clean := Trim(url);
    if clean == "" then false else PatternTest(clean)
  }

  /** Validity is membership of the trimmed input in the pattern's language;
      the explicit emptiness test never changes the answer, because every
      match contains the host. */
  lemma ValidIffInLanguage(url: string)
    ensures IsValidTikTokUrl(url) <==> InUrlLanguage(Trim(url))
  {
    PatternTestCorrect(Trim(url));
  }

  /** Empty and whitespace-only input is never valid. */
  lemma BlankUrlRejected(url: string)
    requires forall i :: 0 <= i < |url| ==> IsTrimmable(url[i])
    ensures !IsValidTikTokUrl(url)
  {
    TrimEmptyIff(url);
  }

  /** Surrounding whitespace does not affect validity. */
  lemma ValidityIgnoresSurroundingWhitespace(url: string)
    ensures IsValidTikTokUrl(url) == IsValidTikTokUrl(Trim(url))
  {
    TrimIdempotent(url);
  }

  /** Text without surrounding whitespace is valid exactly when its
      lower-cased form starts with an admitted prefix and no line terminator
      follows. */
  lemma ValidWithoutWhitespace(s: string, l: string)
    requires s != [] && !IsTrimmable(s[0]) && !IsTrimmable(s[|s| - 1])
    requires l == AsciiLower(s)
    ensures IsValidTikTokUrl(s) == (
      var a := l[SchemeLength(l)..]; var b := a[SubdomainLength(a)..];
      HasPrefix(b, Host) && NoLineTerminator(b[|Host|..]))
  {
    TrimStartNoop(s);
    TrimEndNoop(s);
  }

  /** Short links are accepted. */
  lemma ShortLinkAccepted()
    ensures IsValidTikTokUrl("vm.tiktok.com/ZMabc")
  {
    var s := "vm.tiktok.com/ZMabc";
    var l := "vm.tiktok.com/zmabc";
    LowerShortLink(s, l);
    ValidWithoutWhitespace(s, l);
    ShortLinkMatches(l);
  }

  lemma LowerShortLink(s: string, l: string)
    requires s == "vm.tiktok.com/ZMabc" && l == "vm.tiktok.com/zmabc"
    ensures AsciiLower(s) == l
  {
    forall i | 0 <= i < |s| ensures AsciiLower(s)[i] == l[i] {
      assert LowerChar(s[i]) == l[i];
    }
  }

  lemma LowerUpperCase(s: string, l: string)
    requires s == "HTTPS://WWW.TIKTOK.COM/@u" && l == "https://www.tiktok.com/@u"
    ensures AsciiLower(s) == l
  {
    var s1, s2 := "HTTPS://WWW.", "TIKTOK.COM/@u";
    var l1, l2 := "https://www.", "tiktok.com/@u";
    LowerUpperStart(s1, l1);
    LowerUpperEnd(s2, l2);
    AsciiLowerConcat(s1, s2);
    assert s == s1 + s2 && l == l1 + l2;
  }

  lemma LowerUpperStart(s: string, l: string)
    requires s == "HTTPS://WWW." && l == "https://www."
    ensures AsciiLower(s) == l
  {
    forall i | 0 <= i < |s| ensures AsciiLower(s)[i] == l[i] {
      assert LowerChar(s[i]) == l[i];
    }
  }

  lemma LowerUpperEnd(s: string, l: string)
    requires s == "TIKTOK.COM/@u" && l == "tiktok.com/@u"
    ensures AsciiLower(s) == l
  {
    forall i | 0 <= i < |s| ensures AsciiLower(s)[i] == l[i] {
      assert LowerChar(s[i]) == l[i];
    }
  }

  lemma ShortLinkMatches(l: string)
    requires l == "vm.tiktok.com/zmabc"
    ensures var a := l[SchemeLength(l)..]; var b := a[SubdomainLength(a)..];
      HasPrefix(b, Host) && NoLineTerminator(b[|Host|..])
  {
    assert SchemeLength(l) == 0 by { PrefixCharsDiffer(l, "https://", 0); PrefixCharsDiffer(l, "http://", 0); }
    assert SubdomainLength(l) == 3 by { PrefixCharsDiffer(l, "www.", 1); assert l[..3] == "vm."; }
    assert l[3..][..11] == Host;
    assert NoLineTerminator(l[14..]);
  }

  /** Upper case is accepted. */
  lemma UpperCaseAccepted()
    ensures IsValidTikTokUrl("HTTPS://WWW.TIKTOK.COM/@u")
  {
    var s := "HTTPS://WWW.TIKTOK.COM/@u";
    var l := "https://www.tiktok.com/@u";
    LowerUpperCase(s, l);
    ValidWithoutWhitespace(s, l);
    UpperCaseMatches(l);
  }

  lemma UpperCaseMatches(l: string)
    requires l == "https://www.tiktok.com/@u"
    ensures var a := l[SchemeLength(l)..]; var b := a[SubdomainLength(a)..];
      HasPrefix(b, Host) && NoLineTerminator(b[|Host|..])
  {
    assert SchemeLength(l) == 8 by { assert l[..8] == "https://"; }
    assert SubdomainLength(l[8..]) == 4 by { assert l[8..][..4] == "www."; }
    assert l[12..][..11] == Host;
    assert NoLineTerminator(l[23..]);
  }

  /** A missing slash after the domain is rejected. */
  lemma MissingSlashRejected()
    ensures !IsValidTikTokUrl("tiktok.com")
  {
    // every admitted prefix ends with the host and its slash, which is longer
    // than the whole input
    var s := "tiktok.com";
    TrimStartNoop(s);
    TrimEndNoop(s);
    ValidIffInLanguage(s);
    forall i, j | 0 <= i < |Schemes| && 0 <= j < |Subdomains| ensures !MatchesWith(AsciiLower(s), i, j) {
      assert |PatternPrefix(i, j)| >= |Host|;
    }
  }

  /** An unknown subdomain is rejected. */
  lemma UnknownSubdomainRejected()
    ensures !IsValidTikTokUrl("us.tiktok.com/x")
  {
    var l := "us.tiktok.com/x";
    ValidWithoutWhitespace(l, l);
    assert SchemeLength(l) == 0 by { PrefixCharsDiffer(l, "https://", 0); PrefixCharsDiffer(l, "http://", 0); }
    assert SubdomainLength(l) == 0 by {
      PrefixCharsDiffer(l, "www.", 0); PrefixCharsDiffer(l, "vm.", 0); PrefixCharsDiffer(l, "vt.", 0);
      PrefixCharsDiffer(l, "v.", 0); PrefixCharsDiffer(l, "m.", 0);
    }
    PrefixCharsDiffer(l, Host, 0);
  }

  /** A look-alike domain is rejected. */
  lemma LookAlikeRejected()
    ensures !IsValidTikTokUrl("evil-tiktok.com/")
  {
    var l := "evil-tiktok.com/";
    ValidWithoutWhitespace(l, l);
    assert SchemeLength(l) == 0 by { PrefixCharsDiffer(l, "https://", 0); PrefixCharsDiffer(l, "http://", 0); }
    assert SubdomainLength(l) == 0 by {
      PrefixCharsDiffer(l, "www.", 0); PrefixCharsDiffer(l, "vm.", 0); PrefixCharsDiffer(l, "vt.", 0);
      PrefixCharsDiffer(l, "v.", 0); PrefixCharsDiffer(l, "m.", 0);
    }
    PrefixCharsDiffer(l, Host, 0);
  }

  lemma PrefixCharsDiffer(l: string, p: string, k: nat)
    requires k < |l| && k < |p| && l[k] != p[k]
    ensures !HasPrefix(l, p)
  {
    if HasPrefix(l, p) { PrefixChar(l, p, k); }
  }

  // ==== Errors ====

  /** Why a lookup failed; each carries the message of the `Error` thrown. */
  datatype FetchError =
    | HttpStatus(status: int)          // the response was not ok
    | NullPayload                      // the body was JSON `null`: reading `result.data` throws
    | UpstreamMessage(reason: JsValue) // `new Error(result.msg || result.message)`
    | Unextractable                    // no record and no upstream message
    | Thrown(message: string)          // the request or the JSON parse threw

  const UnextractableText: string :=
    "Unable to extract video source. The video might be private or from a restricted region."

  /** The TypeError a V8-based engine raises for `null.data`. */
  const NullReadText: string := "Cannot read properties of null (reading 'data')"

  /** The `message` of the thrown `Error`; `new Error(v)` stores `String(v)`. */
  function ErrorMessage(e: FetchError): string {
    match e
    case HttpStatus(status) =>
      "API Connection Failed (" + IntToDecimal(status) + "). The service might be under maintenance."
    case NullPayload => NullReadText
    case UpstreamMessage(reason) => ToJsString(reason)
    case Unextractable => UnextractableText
    case Thrown(message) => message
  }

  /** The message of a failed status embeds the status code in decimal. */
  lemma HttpStatusMessage(status: nat)
    ensures var text := ErrorMessage(HttpStatus(status));
      var digits := NatToDecimal(status);
      |text| > 23 + |digits| && text[..23] == "API Connection Failed (" &&
      DecimalValue(text[23..23 + |digits|]) == status
  {
    var digits := NatToDecimal(status);
    var text := ErrorMessage(HttpStatus(status));
    assert text[23..23 + |digits|] == digits;
    DecimalRoundTrip(status);
  }

  // ==== Normalisation ====

  /** Top-level fields whose truthiness marks a flattened payload. */
  const DataMarkerKeys: seq<string> := ["play", "id", "video_link_nwm"]

  /** Where the playable no-watermark URL is looked for, best first. */
  const PlayKeys: seq<string> := ["video_link_nwm_hd", "video_link_nwm", "play", "url"]

  /** Where the watermarked URL is looked for, before falling back to the play URL. */
  const WatermarkKeys: seq<string> := ["video_link_wm", "wmplay"]

  /** The values of `keys` in `v`, in order. */
  function Probe(v: JsValue, keys: seq<string>): (r: seq<JsValue>)
    ensures |r| == |keys| && forall i :: 0 <= i < |keys| ==> r[i] == Get(v, keys[i])
  {
    seq(|keys|, i requires 0 <= i < |keys| => Get(v, keys[i]))
  }

  /** Where the video fields live: `result.data` when it is a non-null,
      non-array object, otherwise the payload itself when it carries one of
      the marker fields, otherwise nowhere. */
  function LocateData(result: JsValue): (r: Option<JsValue>)
    ensures r.Some? ==> r.value.Obj?
    ensures Get(result, "data").Obj? ==> r == Some(Get(result, "data"))
    ensures !Get(result, "data").Obj? ==>
      (r == Some(result) <==> exists i :: 0 <= i < |DataMarkerKeys| && Truthy(Get(result, DataMarkerKeys[i])))
    ensures !Get(result, "data").Obj? ==> r == None || r == Some(result)
  {
    var d := Get(result, "data");
    assert DataMarkerKeys[0] == "play" && DataMarkerKeys[1] == "id" && DataMarkerKeys[2] == "video_link_nwm";
    if Truthy(d) && d.Obj? then Some(d)
    else if Truthy(Get(result, "play")) || Truthy(Get(result, "id")) || Truthy(Get(result, "video_link_nwm")) then
      Some(result)
    else None
  }

  /** The play URL: the first truthy of the play keys. Its type is not checked. */
  function ResolvePlay(d: JsValue): (play: JsValue)
    ensures Truthy(play) <==> exists i :: 0 <= i < |PlayKeys| && Truthy(Get(d, PlayKeys[i]))
    ensures Truthy(play) ==> exists i :: 0 <= i < |PlayKeys| && play == Get(d, PlayKeys[i])
    ensures forall i :: 0 <= i < |PlayKeys| && Truthy(Get(d, PlayKeys[i])) && FalsyBefore(Probe(d, PlayKeys), i) ==>
      play == Get(d, PlayKeys[i])
  {
    var candidates := Probe(d, PlayKeys);
    var play := FirstTruthy(candidates);
    FirstTruthyPicks(candidates, play);
    play
  }

  const IdKeys: seq<string> := ["_id", "id", "aweme_id"]
  const TitleKeys: seq<string> := ["title", "desc"]
  const CoverKeys: seq<string> := ["cover", "origin_cover"]

  /** The author block: each of its three fields defaulted on its own. */
  function ResolveAuthor(author: JsValue): (a: Author)
    ensures FallsBackTo(a.nickname, [Get(author, "nickname")], Str("TikTok User"))
    ensures FallsBackTo(a.uniqueId, [Get(author, "unique_id")], Str("tiktok_user"))
    ensures FallsBackTo(a.avatar, [Get(author, "avatar")], Str("https://www.tiktok.com/favicon.ico"))
    ensures Truthy(a.nickname) && Truthy(a.uniqueId) && Truthy(a.avatar)
  {
    Author(
      nickname := Fallback([Get(author, "nickname")], Str("TikTok User")),
      uniqueId := Fallback([Get(author, "unique_id")], Str("tiktok_user")),
      avatar := Fallback([Get(author, "avatar")], Str("https://www.tiktok.com/favicon.ico")))
  }

  /** The track block: `music_info` first, then the `music` object. */
  function ResolveMusicInfo(musicInfo: JsValue, music: JsValue): (m: MusicInfo)
    ensures FallsBackTo(m.title, [Get(musicInfo, "title"), Get(music, "title")], Str("Original Sound"))
    ensures FallsBackTo(m.author, [Get(musicInfo, "author"), Get(music, "author")], Str("Unknown"))
    ensures Truthy(m.title) && Truthy(m.author)
  {
    MusicInfo(
      title := Fallback([Get(musicInfo, "title"), Get(music, "title")], Str("Original Sound")),
      author := Fallback([Get(musicInfo, "author"), Get(music, "author")], Str("Unknown")))
  }

  /** `music`: a string is kept as it is (even when empty); anything else
      yields its `uri`, or empty text. */
  function ResolveMusic(music: JsValue): (m: JsValue)
    ensures music.Str? ==> m == music
    ensures !music.Str? ==> FallsBackTo(m, [Get(music, "uri")], Str(""))
    ensures m.Str? || Truthy(m)
  {
    if music.Str? then music else Fallback([Get(music, "uri")], Str(""))
  }

  /** The canonical record built from the data object and the resolved play
      URL; every field is resolved from its own chain. */
  function BuildRecord(d: JsValue, play: JsValue, now: nat): (v: VideoData)
    requires Truthy(play)
    ensures v.play == play
    ensures FallsBackTo(v.id, Probe(d, IdKeys), Str(NatToDecimal(now)))
    ensures FallsBackTo(v.title, Probe(d, TitleKeys), Str("TikTok Video"))
    ensures FallsBackTo(v.cover, Probe(d, CoverKeys), Str(""))
    ensures FallsBackTo(v.wmplay, Probe(d, WatermarkKeys), play)
    ensures FallsBackTo(v.duration, [Get(d, "duration")], Num(0))
    ensures v.author == ResolveAuthor(Get(d, "author"))
    ensures v.musicInfo == ResolveMusicInfo(Get(d, "music_info"), Get(d, "music"))
    ensures v.music == ResolveMusic(Get(d, "music"))
    ensures Canonical(v)
  {
    var generated := Str(NatToDecimal(now));
    assert Truthy(generated);
    var id := Fallback(Probe(d, IdKeys), generated);
    var title := Fallback(Probe(d, TitleKeys), Str("TikTok Video"));
    var cover := Fallback(Probe(d, CoverKeys), Str(""));
    var duration := Fallback([Get(d, "duration")], Num(0));
    var wmplay := Fallback(Probe(d, WatermarkKeys), play);
    VideoData(
      id := id,
      title := title,
      cover := cover,
      play := play,
      author := ResolveAuthor(Get(d, "author")),
      duration := duration,
      wmplay := wmplay,
      music := ResolveMusic(Get(d, "music")),
      musicInfo := ResolveMusicInfo(Get(d, "music_info"), Get(d, "music")))
  }

  /** What every record the normaliser builds satisfies: the play URL, the
      watermarked URL, the id, the title and the author and track texts are
      all truthy; the cover is truthy or empty text, the duration truthy or 0,
      and the music a string or truthy. */
  ghost predicate Canonical(v: VideoData) {
    && Truthy(v.play) && Truthy(v.wmplay) && Truthy(v.id) && Truthy(v.title)
    && Truthy(v.author.nickname) && Truthy(v.author.uniqueId) && Truthy(v.author.avatar)
    && Truthy(v.musicInfo.title) && Truthy(v.musicInfo.author)
    && (Truthy(v.cover) || v.cover == Str(""))
    && (Truthy(v.duration) || v.duration == Num(0))
    && (v.music.Str? || Truthy(v.music))
  }

  /** The error chosen when no record could be built: the upstream's own
      `msg || message` when that is truthy, the fixed text otherwise. */
  function ReportedFailure(result: JsValue): (e: FetchError)
    ensures e.UpstreamMessage? <==> Truthy(Get(result, "msg")) || Truthy(Get(result, "message"))
    ensures !e.UpstreamMessage? ==> e == Unextractable
    ensures e.UpstreamMessage? ==> Truthy(e.reason)
    ensures e.UpstreamMessage? && Truthy(Get(result, "msg")) ==> e.reason == Get(result, "msg")
    ensures e.UpstreamMessage? && !Truthy(Get(result, "msg")) ==> e.reason == Get(result, "message")
  {
    var reason := FirstTruthy([Get(result, "msg"), Get(result, "message")]);
    if Truthy(reason) then UpstreamMessage(reason) else Unextractable
  }

  /** The body of the lookup after the JSON has been parsed. */
  function Normalize(result: JsValue, now: nat): (r: Result<ApiResponse, FetchError>)
    ensures result.Null? ==> r == Failure(NullPayload)
    ensures r.Success? <==>
      !result.Null? && LocateData(result).Some? && Truthy(ResolvePlay(LocateData(result).value))
    ensures r.Success? ==>
      && r.value.code == 0 && r.value.msg == "success"
      && r.value.data.play == ResolvePlay(LocateData(result).value)
      && r.value.data == BuildRecord(LocateData(result).value, ResolvePlay(LocateData(result).value), now)
      && Canonical(r.value.data)
      && FallsBackTo(r.value.processedTime, [Get(result, "processed_time")], Num(0))
    ensures r.Failure? && !result.Null? ==> r.error == ReportedFailure(result)
  {
    if result.Null? then Failure(NullPayload)
    else
      match LocateData(result)
      case None => Failure(ReportedFailure(result))
      case Some(d) =>
        var play := ResolvePlay(d);
        if Truthy(play) then
          Success(ApiResponse(
            code := 0,
            msg := "success",
            processedTime := Fallback([Get(result, "processed_time")], Num(0)),
            data := BuildRecord(d, play, now)))
        else Failure(ReportedFailure(result))
  }

  // ==== The lookup ====

  /** The response body as `response.json()` delivered it. */
  datatype Body = Json(value: JsValue) | Unparsable(message: string)

  /** What the HTTP request produced. */
  datatype Transport = Rejected(message: string) | Responded(status: int, body: Body)

  /** `fetchTikTokInfo`: a status outside 200-299 fails before the body is
      read; a body that failed to parse, or a rejected request, fails with
      the runtime's message; a parsed body is normalised. */
  function FetchTikTokInfo(t: Transport, now: nat): (r: Result<ApiResponse, FetchError>)
    ensures t.Rejected? ==> r == Failure(Thrown(t.message))
    ensures t.Responded? && !(200 <= t.status < 300) ==> r == Failure(HttpStatus(t.status))
    ensures t.Responded? && 200 <= t.status < 300 && t.body.Unparsable? ==> r == Failure(Thrown(t.body.message))
    ensures t.Responded? && 200 <= t.status < 300 && t.body.Json? ==> r == Normalize(t.body.value, now)
  {
    match t
    case Rejected(message) => Failure(Thrown(message))
    case Responded(status, body) =>
      if !(200 <= status < 300) then Failure(HttpStatus(status))
      else
        match body
        case Unparsable(message) => Failure(Thrown(message))
        case Json(value) => Normalize(value, now)
  }

  // ==== Properties of the normaliser ====

  /** On success the watermarked URL is always truthy: the first truthy of its
      own keys, or else the play URL itself. */
  lemma {:induction false} WatermarkDefaultsToPlay(result: JsValue, now: nat)
    requires Normalize(result, now).Success?
    ensures var v := Normalize(result, now).value.data;
      Truthy(v.wmplay) &&
      (v.wmplay == v.play || exists i :: 0 <= i < |WatermarkKeys| && v.wmplay == Get(LocateData(result).value, WatermarkKeys[i]))
  {
    var d := LocateData(result).value;
    var v := Normalize(result, now).value.data;
    assert FallsBackTo(v.wmplay, Probe(d, WatermarkKeys), v.play);
  }

  /** A record whose id is missing everywhere gets the decimal text of the
      current time as its id. */
  lemma GeneratedId(result: JsValue, now: nat)
    requires Normalize(result, now).Success?
    requires forall i :: 0 <= i < |IdKeys| ==> !Truthy(Get(LocateData(result).value, IdKeys[i]))
    ensures Normalize(result, now).value.data.id == Str(NatToDecimal(now))
  {
    var cs := Probe(LocateData(result).value, IdKeys);
    assert FalsyBefore(cs, |cs|);
  }

  /** A wrapped payload `{data: {play: x, ...}}` whose data holds no
      no-watermark link yields `x` as the play URL. */
  lemma WrappedPayload(result: JsValue, now: nat, x: string)
    requires Get(result, "data").Obj?
    requires Get(Get(result, "data"), "play") == Str(x) && x != ""
    requires !Truthy(Get(Get(result, "data"), "video_link_nwm_hd"))
    requires !Truthy(Get(Get(result, "data"), "video_link_nwm"))
    ensures Normalize(result, now).Success?
    ensures Normalize(result, now).value.data.play == Str(x)
  {
    var d := Get(result, "data");
    var cs := Probe(d, PlayKeys);
    assert Truthy(cs[2]) && FalsyBefore(cs, 2);
  }

  /** A flattened payload `{video_link_nwm: x, ...}` without a data object and
      without an HD link yields `x` as the play URL. */
  lemma FlattenedPayload(result: JsValue, now: nat, x: string)
    requires result.Obj? && !Get(result, "data").Obj?
    requires Get(result, "video_link_nwm") == Str(x) && x != ""
    requires !Truthy(Get(result, "video_link_nwm_hd"))
    ensures Normalize(result, now).Success?
    ensures Normalize(result, now).value.data.play == Str(x)
  {
    assert Truthy(Get(result, DataMarkerKeys[2]));
    var cs := Probe(result, PlayKeys);
    assert Truthy(cs[1]) && FalsyBefore(cs, 1);
  }

  /** A data object without any play URL fails, with the upstream's message
      when it gives one. */
  lemma DataWithoutPlayUrl(result: JsValue, now: nat)
    requires Get(result, "data").Obj?
    requires forall i :: 0 <= i < |PlayKeys| ==> !Truthy(Get(Get(result, "data"), PlayKeys[i]))
    ensures Normalize(result, now) == Failure(ReportedFailure(result))
  {
  }

  /** An HD no-watermark link beats every other play key: wherever the data
      object was found, a truthy `video_link_nwm_hd` makes the lookup succeed
      with that link as the play URL, whatever `video_link_nwm`, `play` and
      `url` hold. */
  lemma HdLinkWins(result: JsValue, now: nat)
    requires LocateData(result).Some?
    requires Truthy(Get(LocateData(result).value, "video_link_nwm_hd"))
    ensures Normalize(result, now).Success?
    ensures Normalize(result, now).value.data.play == Get(LocateData(result).value, "video_link_nwm_hd")
  {
    var d := LocateData(result).value;
    assert PlayKeys[0] == "video_link_nwm_hd";
    assert FalsyBefore(Probe(d, PlayKeys), 0);
  }

  /** `{msg: "private video"}` fails with exactly that message. */
  lemma PrivateVideo(now: nat)
    ensures var result := Obj(map["msg" := Str("private video")]);
      Normalize(result, now) == Failure(UpstreamMessage(Str("private video")))
      && ErrorMessage(Normalize(result, now).error) == "private video"
  {
    var result := Obj(map["msg" := Str("private video")]);
    assert Get(result, "data") == Undefined;
    assert forall i :: 0 <= i < |DataMarkerKeys| ==> Get(result, DataMarkerKeys[i]) == Undefined;
  }

  /** A non-ok status decides the outcome whatever the body holds. */
  lemma StatusGateIgnoresBody(status: int, b1: Body, b2: Body, now: nat)
    requires !(200 <= status < 300)
    ensures FetchTikTokInfo(Responded(status, b1), now) == FetchTikTokInfo(Responded(status, b2), now)
    ensures FetchTikTokInfo(Responded(status, b1), now).Failure?
  {
  }
}
