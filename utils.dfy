/** `utils.rs`: the file name a download gets from its URL. Baidu PCS links
    carry it in their `fin` query parameter; any other URL gives its last
    path segment. The three regular expressions are stated directly, with the
    regex crate's semantics: the leftmost match wins, `.` matches anything
    but `\n`, and `$` is the end of the text. */
module Utils {
  import opened Wrappers
  import opened Text
  import opened Utf8

  // ---------------------------------------------------------------------
  // is_baidupcs_link: ^https?://.+\.baidupcs\.com/file/.+$

  const PcsMarker: string := ".baidupcs.com/file/"

  /** What follows `http://` or `https://`, if the URL starts with either. */
  function AfterScheme(url: string): Option<string> {
    if StartsWith(url, "https://") then Some(url[8..])
    else if StartsWith(url, "http://") then Some(url[7..])
    else None
  }

  /** `is_baidupcs_link` */
  predicate IsBaiduPcsLink(url: string) {
    match AfterScheme(url)
    case None => false
    case Some(rest) =>
      '\n' !in rest
      && exists i | 1 <= i && i + |PcsMarker| < |rest| :: OccursAt(rest, PcsMarker, i)
  }

  function PcsShape(scheme: string, host: string, file: string): string {
    (scheme + "://") + (host + (PcsMarker + file))
  }

  /** The pattern read as a description of the whole URL. */
  ghost predicate MatchesPcsPattern(url: string) {
    exists scheme, host, file ::
      PcsShape(scheme, host, file) == url && (scheme == "http" || scheme == "https")
      && host != [] && file != [] && '\n' !in host && '\n' !in file
  }

  /** `is_baidupcs_link` holds exactly for the URLs the pattern describes. */
  lemma BaiduPcsLinkMatchesPattern(url: string)
    ensures IsBaiduPcsLink(url) <==> MatchesPcsPattern(url)
  {
    if IsBaiduPcsLink(url) { LinkHasPatternShape(url); }
    if MatchesPcsPattern(url) {
      var scheme, host, file :| PcsShape(scheme, host, file) == url && (scheme == "http" || scheme == "https")
        && host != [] && file != [] && '\n' !in host && '\n' !in file;
      PatternShapeIsLink(scheme, host, file);
    }
  }

  /** The scheme that `AfterScheme` strips. */
  function SchemeOf(url: string): string {
    if StartsWith(url, "https://") then "https" else "http"
  }

  lemma SchemeThenRest(url: string)
    requires AfterScheme(url).Some?
    ensures url == (SchemeOf(url) + "://") + AfterScheme(url).value
  {
    var m := if StartsWith(url, "https://") then 8 else 7;
    assert url[..m] == SchemeOf(url) + "://";
    assert url == url[..m] + url[m..];
  }

  lemma SplitAtMarker(rest: string, i: nat)
    requires OccursAt(rest, PcsMarker, i)
    ensures rest == rest[..i] + (PcsMarker + rest[i + |PcsMarker|..])
  {
    assert rest[i..] == rest[i..i + |PcsMarker|] + rest[i + |PcsMarker|..];
    assert rest == rest[..i] + rest[i..];
  }

  lemma {:induction false} LinkHasPatternShape(url: string)
    requires IsBaiduPcsLink(url)
    ensures MatchesPcsPattern(url)
  {
    var rest := AfterScheme(url).value;
    SchemeThenRest(url);
    var i :| 1 <= i && i + |PcsMarker| < |rest| && OccursAt(rest, PcsMarker, i);
    SplitAtMarker(rest, i);
    var host, file := rest[..i], rest[i + |PcsMarker|..];
    assert PcsShape(SchemeOf(url), host, file) == url;
    assert forall k :: 0 <= k < |host| ==> host[k] == rest[k];
    assert forall k :: 0 <= k < |file| ==> file[k] == rest[i + |PcsMarker| + k];
  }

  lemma {:induction false} PatternShapeIsLink(scheme: string, host: string, file: string)
    requires scheme == "http" || scheme == "https"
    requires host != [] && file != [] && '\n' !in host && '\n' !in file
    ensures IsBaiduPcsLink(PcsShape(scheme, host, file))
  {
    var url := PcsShape(scheme, host, file);
    var rest := host + (PcsMarker + file);
    assert url[|scheme| + 3..] == rest;
    if scheme == "https" {
      assert url[..8] == "https://";
    } else {
      assert url[4] == ':' && url[..7] == "http://";
    }
    assert AfterScheme(url) == Some(rest);
    assert rest[|host|..|host| + |PcsMarker|] == PcsMarker;
    assert OccursAt(rest, PcsMarker, |host|);
    forall k | 0 <= k < |rest| ensures rest[k] != '\n' {
      if k < |host| { assert rest[k] == host[k]; }
      else if k < |host| + |PcsMarker| { assert rest[k] == PcsMarker[k - |host|]; }
      else { assert rest[k] == file[k - |host| - |PcsMarker|]; }
    }
  }

  // ---------------------------------------------------------------------
  // get_file_name_from_baidupcs: &fin=([^&]+)

  /** Length of the run of characters other than `&` at the front of `s`. */
  function RunToAmpersand(s: string): (n: nat)
    ensures n <= |s| && '&' !in s[..n]
    ensures n < |s| ==> s[n] == '&'
  {
    if s == [] || s[0] == '&' then 0
    else
      var n := 1 + RunToAmpersand(s[1..]);
      assert s[..n] == [s[0]] + s[1..][..n - 1];
      n
  }

  /** `&fin=` at `i` followed by at least one character other than `&`. */
  predicate FinAt(url: string, i: nat) {
    OccursAt(url, "&fin=", i) && i + 5 < |url| && url[i + 5] != '&'
  }

  /** The capture of `&fin=([^&]+)` searched from `from` on. */
  function FinValueFrom(url: string, from: nat): (r: Option<string>)
    ensures r.Some? ==> r.value != [] && '&' !in r.value
    ensures r.None? <==> forall i :: from <= i ==> !FinAt(url, i)
    ensures r.Some? ==> exists i :: from <= i && FinAt(url, i) && r.value == url[i + 5..i + 5 + RunToAmpersand(url[i + 5..])]
    decreases |url| - from
  {
    if from + 5 >= |url| then None
    else if FinAt(url, from) then Some(url[from + 5..from + 5 + RunToAmpersand(url[from + 5..])])
    else FinValueFrom(url, from + 1)
  }

  /** The `fin` parameter's raw value: the leftmost `&fin=` that is followed
      by something other than `&`, up to the next `&`. */
  function FinValue(url: string): Option<string> {
    FinValueFrom(url, 0)
  }

  /** `'+'` replaced by `"%20"`, as line 19 does before decoding. */
  function PlusAsEscape(s: string): string {
    ReplaceAll(s, "+", "%20")
  }

  /** `get_file_name_from_baidupcs`: decode the value with `+` read as a
      space; if that fails, decode it as it is; if that fails too, none. */
  function FileNameFromBaidupcs(url: string): (r: Option<string>)
    ensures FinValue(url).None? ==> r.None?
    ensures r.Some? ==> r == UrlDecode(PlusAsEscape(FinValue(url).value)) || r == UrlDecode(FinValue(url).value)
    ensures FinValue(url).Some? && UrlDecode(PlusAsEscape(FinValue(url).value)).Some? ==>
              r == UrlDecode(PlusAsEscape(FinValue(url).value))
    ensures FinValue(url).Some? && UrlDecode(PlusAsEscape(FinValue(url).value)).None? ==>
              r == UrlDecode(FinValue(url).value)
  {
    match FinValue(url)
    case None => None
    case Some(raw) =>
      match UrlDecode(PlusAsEscape(raw))
      case Some(decoded) => Some(decoded)
      case None => UrlDecode(raw)
  }

  /** Every `+` read as a space (the application/x-www-form-urlencoded
      convention of the WHATWG URL Standard, section 5.1). */
  function PlusAsSpace(s: string): (r: string)
    ensures |r| == |s| && '+' !in r
  {
    seq(|s|, k requires 0 <= k < |s| => if s[k] == '+' then ' ' else s[k])
  }

  lemma PlusAsEscapeStep(s: string)
    requires s != []
    ensures PlusAsEscape(s) == (if s[0] == '+' then "%20" else [s[0]]) + PlusAsEscape(s[1..])
  {
    assert s[..1] == [s[0]];
  }

  lemma {:induction false} PlusEscapeDecodes(s: string)
    requires '%' !in s
    ensures PercentDecode(Encode(PlusAsEscape(s))) == Encode(PlusAsSpace(s))
    decreases |s|
  {
    if s == [] {
      assert PlusAsSpace(s) == [];
    } else {
      PlusAsEscapeStep(s);
      PlusEscapeDecodes(s[1..]);
      if s[0] == '+' {
        EscapeDecodesToSpace(PlusAsEscape(s[1..]), PlusAsSpace(s[1..]));
        assert PlusAsSpace(s) == " " + PlusAsSpace(s[1..]);
      } else {
        PlainCharDecodes(s[0], PlusAsEscape(s[1..]), PlusAsSpace(s[1..]));
        assert PlusAsSpace(s) == [s[0]] + PlusAsSpace(s[1..]);
      }
    }
  }

  /** `%20` in front of a text that decodes to `decoded` adds a space. */
  lemma EscapeDecodesToSpace(rest: string, decoded: string)
    requires PercentDecode(Encode(rest)) == Encode(decoded)
    ensures PercentDecode(Encode("%20" + rest)) == Encode(" " + decoded)
  {
    EncodeAppend("%20", rest);
    assert Encode("%20") == [0x25, 0x32, 0x30];
    var e := Encode(rest);
    assert ([0x25, 0x32, 0x30] + e)[3..] == e;
    EncodeAppend(" ", decoded);
  }

  /** A character other than `%` in front of such a text is kept. */
  lemma PlainCharDecodes(c: char, rest: string, decoded: string)
    requires c != '%' && PercentDecode(Encode(rest)) == Encode(decoded)
    ensures PercentDecode(Encode([c] + rest)) == Encode([c] + decoded)
  {
    EncodeAppend([c], rest);
    assert Encode([c]) == EncodeChar(c);
    PercentDecodePlain(EncodeChar(c), Encode(rest));
    EncodeAppend([c], decoded);
  }

  /** A `fin` value without percent escapes comes out with each `+` read as a
      space. */
  lemma {:induction false} FinPlusIsSpace(url: string)
    requires FinValue(url).Some? && '%' !in FinValue(url).value
    ensures FileNameFromBaidupcs(url) == Some(PlusAsSpace(FinValue(url).value))
  {
    var raw := FinValue(url).value;
    PlusEscapeDecodes(raw);
    DecodeEncode(PlusAsSpace(raw));
  }

  // ---------------------------------------------------------------------
  // get_file_name_from_pathname: \/([^\/?]+)(\?.*)?$

  /** Length of the run of characters other than `/` and `?` at the front. */
  function SegmentLength(s: string): (n: nat)
    ensures n <= |s| && '/' !in s[..n] && '?' !in s[..n]
    ensures n < |s| ==> s[n] == '/' || s[n] == '?'
  {
    if s == [] || s[0] == '/' || s[0] == '?' then 0
    else
      var n := 1 + SegmentLength(s[1..]);
      assert s[..n] == [s[0]] + s[1..][..n - 1];
      n
  }

  /** The capture when the pattern matches with its `/` at position `p`. */
  function PathnameMatchAt(url: string, p: nat): (r: Option<string>)
    requires p < |url|
    ensures r.Some? ==> r.value != [] && '/' !in r.value && '?' !in r.value
  {
    if url[p] != '/' then None
    else
      var e := p + 1 + SegmentLength(url[p + 1..]);
      if e > p + 1 && (e == |url| || (url[e] == '?' && '\n' !in url[e + 1..])) then Some(url[p + 1..e])
      else None
  }

  /** The leftmost match at or after `from`. */
  function PathnameFrom(url: string, from: nat): (r: Option<string>)
    ensures r.Some? ==> r.value != [] && '/' !in r.value && '?' !in r.value
    decreases |url| - from
  {
    if from >= |url| then None
    else match PathnameMatchAt(url, from)
      case Some(name) => Some(name)
      case None => PathnameFrom(url, from + 1)
  }

  /** `get_file_name_from_pathname` */
  function FileNameFromPathname(url: string): (r: Option<string>)
    ensures r.Some? ==> r.value != [] && '/' !in r.value && '?' !in r.value
  {
    PathnameFrom(url, 0)
  }

  /** The text after the last `/`, if there is a `/`. */
  function AfterLastSlash(url: string): Option<string> {
    match LastIndexOfChar(url, '/')
    case None => None
    case Some(k) => Some(url[k + 1..])
  }

  /** Without a query part, the pathname extractor gives exactly the text
      after the last `/`, and nothing when that text is empty or there is no
      `/` at all. */
  lemma PathnameWithoutQuery(url: string)
    requires '?' !in url
    ensures FileNameFromPathname(url) ==
              match AfterLastSlash(url)
              case Some(name) => if name == [] then None else Some(name)
              case None => None
  {
    match LastIndexOfChar(url, '/')
    case None =>
      NoMatchFrom(url, 0);
    case Some(k) =>
      NoMatchBefore(url, 0, k);
      var tail := url[k + 1..];
      var n := SegmentLength(tail);
      assert forall j :: 0 <= j < |tail| ==> tail[j] != '/' && tail[j] != '?';
      assert n == |tail|;
      assert url[k] == '/';
      assert url[k + 1..k + 1 + n] == tail;
      assert n > 0 ==> PathnameMatchAt(url, k) == Some(tail);
      assert n == 0 ==> PathnameMatchAt(url, k) == None;
      if n == 0 {
        NoMatchFrom(url, k + 1);
      }
  }

  /** Without a later `/`, no match starts at or after `from`. */
  lemma {:induction false} NoMatchFrom(url: string, from: nat)
    requires forall j :: from <= j < |url| ==> url[j] != '/'
    ensures PathnameFrom(url, from) == None
    decreases |url| - from
  {
    if from < |url| {
      NoMatchFrom(url, from + 1);
    }
  }

  /** With no `?` and a later `/` at `last`, no match starts before `last`. */
  lemma {:induction false} NoMatchBefore(url: string, from: nat, last: nat)
    requires '?' !in url && from <= last < |url| && url[last] == '/'
    ensures PathnameFrom(url, from) == PathnameFrom(url, last)
    decreases last - from
  {
    if from < last {
      if url[from] == '/' {
        var tail := url[from + 1..];
        var n := SegmentLength(tail);
        assert tail[last - from - 1] == '/';
        assert forall j :: 0 <= j < n ==> tail[..n][j] == tail[j];
        assert n <= last - from - 1;
        assert tail[n] == url[from + 1 + n];
        assert PathnameMatchAt(url, from) == None;
      }
      NoMatchBefore(url, from + 1, last);
    }
  }

  // ---------------------------------------------------------------------

  /** `get_file_name`: a Baidu PCS link is named by its `fin` parameter; any
      other URL by its last path segment, never by a `fin` parameter. */
  function FileName(url: string): (r: Option<string>)
    ensures IsBaiduPcsLink(url) && FinValue(url).None? ==> r.None?
    ensures !IsBaiduPcsLink(url) && r.Some? ==> r.value != [] && '/' !in r.value && '?' !in r.value
    ensures IsBaiduPcsLink(url) ==> r == FileNameFromBaidupcs(url)
    ensures !IsBaiduPcsLink(url) ==> r == FileNameFromPathname(url)
  {
    if IsBaiduPcsLink(url) then FileNameFromBaidupcs(url) else FileNameFromPathname(url)
  }

  /** The name `get_file_name` gives, in plain terms: a Baidu PCS link whose
      `fin` value has no percent escapes is named by that value with each `+`
      read as a space; any other URL without a query part is named by the
      text after its last `/`, and by nothing when that text is empty or the
      URL has no `/`. */
  lemma FileNameOfPlainUrl(url: string)
    ensures IsBaiduPcsLink(url) && FinValue(url).Some? && '%' !in FinValue(url).value ==>
              FileName(url) == Some(PlusAsSpace(FinValue(url).value))
    ensures !IsBaiduPcsLink(url) && '?' !in url ==>
              FileName(url) == match AfterLastSlash(url)
                               case Some(name) => if name == [] then None else Some(name)
                               case None => None
  {
    if IsBaiduPcsLink(url) {
      if FinValue(url).Some? && '%' !in FinValue(url).value {
        FinPlusIsSpace(url);
      }
    } else if '?' !in url {
      PathnameWithoutQuery(url);
    }
  }
}
