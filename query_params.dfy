/** The embed page's reading of its URL: the display options, the URL-safe
    base64 alphabet of section 5 of RFC 4648 (padding omitted as section 3.2
    allows), and the outcome of decoding the `data` parameter. */
module QueryParams {
  import opened Wrappers
  import opened Json

  // ---------------------------------------------------------------------
  // Display options

  datatype Theme = Light | Dark

  datatype EmbedOptions = EmbedOptions(
    autoReload: bool,
    showAssignment: bool,
    isScored: bool,
    showEditors: bool,
    showPreview: bool,
    theme: Theme)
  {
    /** The boolean option a flag names. */
    function Get(f: Flag): bool {
      match f
      case AutoReload => autoReload
      case ShowAssignment => showAssignment
      case IsScored => isScored
      case ShowEditors => showEditors
      case ShowPreview => showPreview
    }

    /** These options with one flag set to `b`. */
    function With(f: Flag, b: bool): (o: EmbedOptions)
      ensures o.Get(f) == b
      ensures forall g :: g != f ==> o.Get(g) == Get(g)
      ensures o.theme == theme
    {
      match f
      case AutoReload => this.(autoReload := b)
      case ShowAssignment => this.(showAssignment := b)
      case IsScored => this.(isScored := b)
      case ShowEditors => this.(showEditors := b)
      case ShowPreview => this.(showPreview := b)
    }
  }

  /** The five boolean options; each is also the name of its query parameter. */
  datatype Flag = AutoReload | ShowAssignment | IsScored | ShowEditors | ShowPreview

  function FlagName(f: Flag): string {
    match f
    case AutoReload => "autoReload"
    case ShowAssignment => "showAssignment"
    case IsScored => "isScored"
    case ShowEditors => "showEditors"
    case ShowPreview => "showPreview"
  }

  const DEFAULT_OPTIONS := EmbedOptions(
    autoReload := true,
    showAssignment := true,
    isScored := true,
    showEditors := true,
    showPreview := true,
    theme := Dark)

  /** The parameters of a query string in order; a key may occur several times. */
  type Query = seq<(string, string)>

  /** `URLSearchParams.get`: the value of the first parameter named `key`,
      or `null` (here `None`) when there is none. */
  function Lookup(q: Query, key: string): (r: Option<string>)
    ensures r.None? <==> forall i :: 0 <= i < |q| ==> q[i].0 != key
    ensures r.Some? ==> exists i :: 0 <= i < |q| && q[i] == (key, r.value) && forall j :: 0 <= j < i ==> q[j].0 != key
  {
    if q == [] then None
    else if q[0].0 == key then Some(q[0].1)
    else
      var r := Lookup(q[1..], key);
      assert r.Some? ==> exists i :: 0 <= i < |q[1..]| && q[1..][i] == (key, r.value) && forall j :: 0 <= j < i ==> q[1..][j].0 != key;
      assert forall i :: 1 <= i < |q| ==> q[i] == q[1..][i - 1];
      r
  }

  /** The display options an embed URL asks for: every flag is on unless its
      parameter is exactly "false", and the theme is light only when its
      parameter is exactly "light". */
  function ParseOptions(q: Query): (o: EmbedOptions)
    ensures forall f :: o.Get(f) <==> Lookup(q, FlagName(f)) != Some("false")
    ensures o.theme == Light <==> Lookup(q, "theme") == Some("light")
  {
    var o := EmbedOptions(
      autoReload := Lookup(q, "autoReload") != Some("false"),
      showAssignment := Lookup(q, "showAssignment") != Some("false"),
      isScored := Lookup(q, "isScored") != Some("false"),
      showEditors := Lookup(q, "showEditors") != Some("false"),
      showPreview := Lookup(q, "showPreview") != Some("false"),
      theme := if Lookup(q, "theme") == Some("light") then Light else Dark);
    assert forall f :: o.Get(f) <==> Lookup(q, FlagName(f)) != Some("false") by {
      forall f ensures o.Get(f) <==> Lookup(q, FlagName(f)) != Some("false") {
        assert f.AutoReload? || f.ShowAssignment? || f.IsScored? || f.ShowEditors? || f.ShowPreview?;
      }
    }
    o
  }

  /** A URL without parameters shows the embed with its default options. */
  lemma {:induction false} ParseEmptyQueryIsDefault()
    ensures ParseOptions([]) == DEFAULT_OPTIONS
  {
  }

  /** Only the first occurrence of a parameter counts: appending parameters
      never changes the value of one already present. */
  lemma {:induction false} LookupFirstWins(q: Query, extra: Query, key: string)
    requires Lookup(q, key).Some?
    ensures Lookup(q + extra, key) == Lookup(q, key)
  {
    if q[0].0 != key {
      assert (q + extra)[1..] == q[1..] + extra;
      LookupFirstWins(q[1..], extra, key);
    }
  }

  /** Appending parameters with other names never changes a value. */
  lemma {:induction false} LookupSkipsOtherKeys(q: Query, extra: Query, key: string)
    requires forall i :: 0 <= i < |extra| ==> extra[i].0 != key
    ensures Lookup(q + extra, key) == Lookup(q, key)
  {
    if q == [] {
      assert q + extra == extra;
    } else if q[0].0 != key {
      assert (q + extra)[1..] == q[1..] + extra;
      LookupSkipsOtherKeys(q[1..], extra, key);
    }
  }

  // ---------------------------------------------------------------------
  // URL-safe base64

  /** `s.replace(/from/g, to)` for a single character `from`. */
  function ReplaceAll(s: string, from: char, to: char): (r: string)
    ensures |r| == |s|
    ensures forall i :: 0 <= i < |s| ==> r[i] == if s[i] == from then to else s[i]
  {
    seq(|s|, i requires 0 <= i < |s| => if s[i] == from then to else s[i])
  }

  /** `s.replace(/=+$/, "")`: `s` without its trailing run of '='. */
  function TrimTrailingPadding(s: string): (r: string)
    ensures |r| <= |s| && r == s[..|r|]
    ensures forall i :: |r| <= i < |s| ==> s[i] == '='
    ensures r == [] || r[|r| - 1] != '='
  {
    if s != [] && s[|s| - 1] == '=' then TrimTrailingPadding(s[..|s| - 1]) else s
  }

  /** The character standard base64 (section 4 of RFC 4648) writes where the
      URL-safe alphabet writes `c`, and back. */
  function ToSafeChar(c: char): char {
    if c == '+' then '-' else if c == '/' then '_' else c
  }

  function FromSafeChar(c: char): char {
    if c == '-' then '+' else if c == '_' then '/' else c
  }

  /** Standard base64 to the URL-safe form: '+' becomes '-', '/' becomes '_',
      and the trailing '=' padding is dropped. */
  function ToUrlSafeBase64(base64: string): (r: string)
    ensures forall i :: 0 <= i < |r| ==> r[i] != '+' && r[i] != '/'
    ensures r == [] || r[|r| - 1] != '='
    ensures |r| <= |base64|
    ensures forall i :: 0 <= i < |r| ==> r[i] == ToSafeChar(base64[i])
    ensures forall i :: |r| <= i < |base64| ==> base64[i] == '='
  {
    TrimTrailingPadding(ReplaceAll(ReplaceAll(base64, '+', '-'), '/', '_'))
  }

  function Repeat(c: char, n: nat): (r: string)
    ensures |r| == n && forall i :: 0 <= i < n ==> r[i] == c
  {
    seq(n, _ => c)
  }

  /** URL-safe base64 back to the standard alphabet: '-' becomes '+', '_'
      becomes '/', and '=' is appended up to a multiple of four characters. */
  function FromUrlSafeBase64(safe: string): (r: string)
    ensures |r| % 4 == 0
    ensures forall i :: 0 <= i < |r| ==> r[i] != '-' && r[i] != '_'
    ensures |r| == |safe| + (if |safe| % 4 == 0 then 0 else 4 - |safe| % 4)
    ensures forall i :: 0 <= i < |safe| ==> r[i] == FromSafeChar(safe[i])
    ensures forall i :: |safe| <= i < |r| ==> r[i] == '='
  {
    var base64 := ReplaceAll(ReplaceAll(safe, '-', '+'), '_', '/');
    var padding := |base64| % 4;
    if padding != 0 then base64 + Repeat('=', 4 - padding) else base64
  }

  /** A character of the standard base64 alphabet (section 4 of RFC 4648). */
  predicate IsBase64Char(c: char) {
    ('A' <= c <= 'Z') || ('a' <= c <= 'z') || ('0' <= c <= '9') || c == '+' || c == '/'
  }

  /** A character of the URL- and filename-safe alphabet (section 5 of RFC 4648). */
  predicate IsUrlSafeChar(c: char) {
    ('A' <= c <= 'Z') || ('a' <= c <= 'z') || ('0' <= c <= '9') || c == '-' || c == '_'
  }

  /** Padded standard base64 text, as `btoa` produces it: a multiple of four
      characters of the alphabet, the last one or two of which may be '='. */
  predicate IsStandardBase64(s: string) {
    && |s| % 4 == 0
    && (forall i :: 0 <= i < |s| ==> IsBase64Char(s[i]) || (s[i] == '=' && i >= |s| - 2))
    && (|s| >= 2 && s[|s| - 2] == '=' ==> s[|s| - 1] == '=')
  }

  /** The number of '=' that end a padded base64 text. */
  function PadCount(s: string): (k: nat)
    requires IsStandardBase64(s)
    ensures k <= 2 && k <= |s|
    ensures forall i :: |s| - k <= i < |s| ==> s[i] == '='
    ensures forall i :: 0 <= i < |s| - k ==> IsBase64Char(s[i])
  {
    if |s| >= 2 && s[|s| - 2] == '=' then 2
    else if |s| >= 1 && s[|s| - 1] == '=' then 1
    else 0
  }

  /** Dropping the trailing '=' of a text that is `n` characters, the last one
      not '=', followed by '=' only leaves those `n` characters. */
  lemma {:induction false} TrimmedLength(t: string, n: nat)
    requires n <= |t|
    requires forall i :: n <= i < |t| ==> t[i] == '='
    requires n == 0 || t[n - 1] != '='
    ensures |TrimTrailingPadding(t)| == n
    decreases |t|
  {
    if |t| > n {
      TrimmedLength(t[..|t| - 1], n);
    }
  }

  /** The URL-safe form of padded standard base64 is the unpadded text in
      the URL-safe alphabet, and its length is never 1 more than a multiple of 4. */
  lemma {:induction false} ToUrlSafeIsUrlSafe(s: string)
    requires IsStandardBase64(s)
    ensures |ToUrlSafeBase64(s)| == |s| - PadCount(s)
    ensures forall i :: 0 <= i < |ToUrlSafeBase64(s)| ==> IsUrlSafeChar(ToUrlSafeBase64(s)[i])
    ensures |ToUrlSafeBase64(s)| % 4 != 1
  {
    var t := ReplaceAll(ReplaceAll(s, '+', '-'), '/', '_');
    TrimmedLength(t, |s| - PadCount(s));
  }

  /** Round trip: restoring the URL-safe form of padded standard base64
      gives back the original text. */
  lemma {:induction false} UrlSafeRoundTrip(s: string)
    requires IsStandardBase64(s)
    ensures FromUrlSafeBase64(ToUrlSafeBase64(s)) == s
  {
    ToUrlSafeIsUrlSafe(s);
    var t := ToUrlSafeBase64(s);
    var r := FromUrlSafeBase64(t);
    assert |r| == |s|;
    forall i | 0 <= i < |s| ensures r[i] == s[i] {
      if i < |t| {
        assert r[i] == FromSafeChar(ToSafeChar(s[i]));
      }
    }
  }

  /** Text already in the standard alphabet with complete padding passes
      through `fromUrlSafeBase64` unchanged; the function is idempotent. */
  lemma {:induction false} FromUrlSafeFixesStandard(s: string)
    requires |s| % 4 == 0
    requires forall i :: 0 <= i < |s| ==> s[i] != '-' && s[i] != '_'
    ensures FromUrlSafeBase64(s) == s
  {
    var r := FromUrlSafeBase64(s);
    assert |r| == |s|;
    forall i | 0 <= i < |s| ensures r[i] == s[i] {
      assert r[i] == FromSafeChar(s[i]);
    }
  }

  lemma {:induction false} FromUrlSafeIdempotent(s: string)
    ensures FromUrlSafeBase64(FromUrlSafeBase64(s)) == FromUrlSafeBase64(s)
  {
    FromUrlSafeFixesStandard(FromUrlSafeBase64(s));
  }

  /** The creator page puts plain `btoa` output into its links; the embed page
      takes such a token through `fromUrlSafeBase64` unchanged. */
  lemma {:induction false} StandardTokenAcceptedUnchanged(s: string)
    requires IsStandardBase64(s)
    ensures FromUrlSafeBase64(s) == s
  {
    FromUrlSafeFixesStandard(s);
  }

  // ---------------------------------------------------------------------
  // The `data` parameter

  /** The browser functions the decoding path calls out to; each either
      returns or throws an error with a message. */
  datatype Browser = Browser(
    decodeUriComponent: string -> Result<string>,
    atob: string -> Result<string>,
    escape: string -> string,
    jsonParse: string -> Result<Json>)

  /** `base64ToUtf8`: `decodeURIComponent(escape(atob(base64)))`. */
  function Base64ToUtf8(base64: string, js: Browser): (r: Result<string>)
    ensures js.atob(base64).Err? ==> r == Err(js.atob(base64).error)
    ensures js.atob(base64).Ok? ==> r == js.decodeUriComponent(js.escape(js.atob(base64).value))
    ensures r.Ok? <==> js.atob(base64).Ok? && js.decodeUriComponent(js.escape(js.atob(base64).value)).Ok?
  {
    match js.atob(base64)
    case Err(e) => Err(e)
    case Ok(binary) => js.decodeUriComponent(js.escape(binary))
  }

  /** The body of the `try` block: URI-decode the token, restore standard
      base64, decode it to text and parse the text as JSON. */
  function DecodeToken(token: string, js: Browser): (r: Result<Json>)
    ensures js.decodeUriComponent(token).Err? ==> r == Err(js.decodeUriComponent(token).error)
    ensures js.decodeUriComponent(token).Ok? ==>
      var text := Base64ToUtf8(FromUrlSafeBase64(js.decodeUriComponent(token).value), js);
      && (text.Err? ==> r == Err(text.error))
      && (text.Ok? ==> r == js.jsonParse(text.value))
    ensures r.Ok? ==>
      && js.decodeUriComponent(token).Ok?
      && Base64ToUtf8(FromUrlSafeBase64(js.decodeUriComponent(token).value), js).Ok?
  {
    match js.decodeUriComponent(token)
    case Err(e) => Err(e)
    case Ok(unescaped) =>
      match Base64ToUtf8(FromUrlSafeBase64(unescaped), js)
      case Err(e) => Err(e)
      case Ok(text) => js.jsonParse(text)
  }

  const PARSE_ERROR_PREFIX := "Failed to parse custom data: "

  /** What the hook reports about the `data` parameter; `JNull` stands for a
      `customData` of `null`. */
  datatype DataOutcome = DataOutcome(customData: Json, parseError: Option<string>)

  /** The hook's `customData`/`parseError` pair: nothing without a non-empty
      `data` parameter, the parsed value when every step succeeds, and
      otherwise no data and a message naming the failure. */
  function ParseCustomData(q: Query, js: Browser): (r: DataOutcome)
    ensures Lookup(q, "data") == None || Lookup(q, "data") == Some("") ==> r == DataOutcome(JNull, None)
    ensures r.parseError.Some? ==> r.customData == JNull && PARSE_ERROR_PREFIX <= r.parseError.value
    ensures r.parseError.Some? <==>
      (Lookup(q, "data").Some? && Lookup(q, "data") != Some("") && DecodeToken(Lookup(q, "data").value, js).Err?)
    ensures r.parseError.Some? ==> r.parseError.value == PARSE_ERROR_PREFIX + DecodeToken(Lookup(q, "data").value, js).error
    ensures r.parseError.None? && Lookup(q, "data").Some? && Lookup(q, "data") != Some("") ==>
      r.customData == DecodeToken(Lookup(q, "data").value, js).value
  {
    match Lookup(q, "data")
    case None => DataOutcome(JNull, None)
    case Some(dataParam) =>
      if dataParam == "" then DataOutcome(JNull, None)
      else
        match DecodeToken(dataParam, js)
        case Ok(customData) => DataOutcome(customData, None)
        case Err(message) => DataOutcome(JNull, Some(PARSE_ERROR_PREFIX + message))
  }

  /** A non-empty `data` parameter holding standard base64 that URI decoding
      leaves as it is, and whose text decodes and parses, yields that value
      and no error: the creator's `btoa` links need no URL-safe form. */
  lemma {:induction false} StandardTokenDecodes(q: Query, token: string, text: string, value: Json, js: Browser)
    requires Lookup(q, "data") == Some(token) && token != ""
    requires IsStandardBase64(token)
    requires js.decodeUriComponent(token) == Ok(token)
    requires js.atob(token) == Ok(text)
    requires js.decodeUriComponent(js.escape(text)) == Ok(text)
    requires js.jsonParse(text) == Ok(value)
    ensures ParseCustomData(q, js) == DataOutcome(value, None)
  {
    StandardTokenAcceptedUnchanged(token);
  }
}
