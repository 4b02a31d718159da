/**
 * The image audit service (services/audit_service.py): the response data
 * record, the MIME type and `data:` URL of the uploaded screenshot, the
 * decision on the model's verdict, the keyword fallback, the default
 * summary, the tolerant JSON extraction and the history context in the
 * prompt. The vision model, the decoder and the database are oracles.
 */
module AuditService {
  import opened Wrappers
  import opened Text
  import opened JsonValues
  import Envelopes
  import YwAudit

  // ---------------------------------------------------------------- response data

  function OrNull(s: Option<string>): (j: Json)
    ensures s.None? <==> j == JNull
    ensures s.Some? ==> j == JStr(s.value)
  {
    match s
    case Some(v) => JStr(v)
    case None => JNull
  }
  /**
   * `_build_response_data`: exactly the asset, the alarm text and the alarm
   * time, each absent one as `null`. The time is given as its serialised text.
   */
  function BuildResponseData(sessionId: string, alarm: Option<string>, alarmTime: Option<string>): (d: Json)
    ensures d.JObj? && Keys(d.fields) == ["equipment_asset", "alarm", "alarm_time"]
    ensures Lookup(d.fields, "equipment_asset") == Some(JStr(sessionId))
    ensures Lookup(d.fields, "alarm") == Some(OrNull(alarm))
    ensures Lookup(d.fields, "alarm_time") == Some(OrNull(alarmTime))
  {
    var fields := [("equipment_asset", JStr(sessionId)), ("alarm", OrNull(alarm)), ("alarm_time", OrNull(alarmTime))];
    assert Lookup(fields[1..][1..], "alarm_time") == Some(OrNull(alarmTime));
    assert Lookup(fields[1..], "alarm_time") == Lookup(fields[1..][1..], "alarm_time");
    JObj(fields)
  }

  // ---------------------------------------------------------------- MIME type and data URL

  /** `s.rfind(c)`: the last index of `c`, or -1. */
  function RFind(s: string, c: char): (r: int)
    ensures -1 <= r < |s|
    ensures r >= 0 ==> s[r] == c && forall j :: r < j < |s| ==> s[j] != c
    ensures r == -1 ==> c !in s
  {
    if s == [] then -1
    else if s[|s| - 1] == c then |s| - 1
    else
      var r := RFind(s[..|s| - 1], c);
      assert forall j :: 0 <= j < |s| - 1 ==> s[..|s| - 1][j] == s[j];
      r
  }

  /** Some character in `s[lo..hi]` is not a dot. */
  predicate NonDotIn(s: string, lo: int, hi: int)
    requires 0 <= lo && hi <= |s|
  {
    exists i | lo <= i < hi :: s[i] != '.'
  }

  /**
   * `os.path.splitext` on POSIX paths: the extension runs from the last dot
   * of the last component, unless only dots precede it in that component.
   */
  function Splitext(p: string): (r: (string, string))
    ensures r.0 + r.1 == p
    ensures r.1 == [] || (r.1[0] == '.' && '.' !in r.1[1..] && '/' !in r.1)
  {
    var sepIndex := RFind(p, '/');
    var dotIndex := RFind(p, '.');
    if dotIndex > sepIndex && NonDotIn(p, sepIndex + 1, dotIndex) then
      assert forall j :: dotIndex < j < |p| ==> p[dotIndex..][j - dotIndex] == p[j];
      assert p[..dotIndex] + p[dotIndex..] == p;
      (p[..dotIndex], p[dotIndex..])
    else
      assert p + [] == p;
      (p, [])
  }

  /** A name with a non-dot character before its last dot splits at that dot. */
  lemma SplitextOfName(stem: string, ext: string)
    requires '/' !in stem && '/' !in ext && '.' !in ext
    requires exists i :: 0 <= i < |stem| && stem[i] != '.'
    ensures Splitext(stem + "." + ext) == (stem, "." + ext)
  {
    var p := stem + "." + ext;
    assert p[|stem|] == '.';
    forall j | |stem| < j < |p|
      ensures p[j] != '.' && p[j] != '/'
    {
      assert p[j] == ext[j - |stem| - 1];
      assert ext[j - |stem| - 1] in ext;
    }
    assert RFind(p, '.') == |stem|;
    forall j | 0 <= j < |p|
      ensures p[j] != '/'
    {
      if j < |stem| {
        assert p[j] == stem[j];
        assert stem[j] in stem;
      }
    }
    assert RFind(p, '/') == -1;
    var i :| 0 <= i < |stem| && stem[i] != '.';
    assert p[i] == stem[i];
    assert NonDotIn(p, 0, |stem|);
    assert p[..|stem|] == stem;
    assert p[|stem|..] == "." + ext;
  }

  /** A name made of leading dots and a dot-free rest, like `.bashrc`, has no extension. */
  lemma SplitextHidden(dots: string, name: string)
    requires dots != [] && forall i :: 0 <= i < |dots| ==> dots[i] == '.'
    requires '.' !in name && '/' !in name
    ensures Splitext(dots + name) == (dots + name, "")
  {
    var p := dots + name;
    forall j | |dots| <= j < |p|
      ensures p[j] != '.'
    {
      assert p[j] == name[j - |dots|];
      assert name[j - |dots|] in name;
    }
    assert p[|dots| - 1] == '.';
    assert RFind(p, '.') == |dots| - 1;
    forall j | 0 <= j < |dots| - 1
      ensures p[j] == '.'
    {
      assert p[j] == dots[j];
    }
    assert !NonDotIn(p, RFind(p, '/') + 1, |dots| - 1);
  }

  const ImageJpeg: string := "image/jpeg"
  const ImagePng: string := "image/png"
  const ImageGif: string := "image/gif"
  const ImageBmp: string := "image/bmp"

  /** The extension table, with `image/jpeg` for everything it does not list. */
  function MimeOf(ext: string): (m: string)
    ensures m in {ImageJpeg, ImagePng, ImageGif, ImageBmp}
    ensures m == ImagePng <==> ext == ".png"
    ensures m == ImageGif <==> ext == ".gif"
    ensures m == ImageBmp <==> ext == ".bmp"
    ensures ext == ".jpg" || ext == ".jpeg" ==> m == ImageJpeg
  {
    if ext == ".png" then ImagePng
    else if ext == ".gif" then ImageGif
    else if ext == ".bmp" then ImageBmp
    else ImageJpeg
  }

  /** The MIME type chosen for an uploaded file name: a name without a dot counts as `.jpg`. */
  function MimeType(filename: string): (m: string)
    ensures m in {ImageJpeg, ImagePng, ImageGif, ImageBmp}
    ensures '.' !in filename ==> m == ImageJpeg
  {
    var ext := if '.' in filename then Lower(Splitext(filename).1) else ".jpg";
    MimeOf(ext)
  }

  /** Only the lower-cased extension decides the type; the stem never does. */
  lemma MimeTypeByExtension(stem: string, ext: string)
    requires '/' !in stem && '/' !in ext && '.' !in ext
    requires exists i :: 0 <= i < |stem| && stem[i] != '.'
    ensures MimeType(stem + "." + ext) == MimeOf(Lower("." + ext))
  {
    SplitextOfName(stem, ext);
    assert (stem + "." + ext)[|stem|] == '.';
  }

  /** `pic_filename or f"{timestamp}.jpg"`: the clock reading is a parameter. */
  function FileName(picFilename: string, stamp: string): (f: string)
    ensures picFilename != "" ==> f == picFilename
  {
    if picFilename != "" then picFilename else stamp + ".jpg"
  }

  /** An unnamed upload is always sent as JPEG. */
  lemma UnnamedUploadIsJpeg(stamp: string)
    requires stamp != [] && forall i :: 0 <= i < |stamp| ==> IsDigit(stamp[i])
    ensures MimeType(FileName("", stamp)) == ImageJpeg
  {
    DigitsNoSlash(stamp);
    JpgClean();
    MimeTypeByExtension(stamp, "jpg");
    assert FileName("", stamp) == stamp + "." + "jpg";
  }

  /** A run of digits holds no slash and starts with a non-dot. */
  lemma DigitsNoSlash(stamp: string)
    requires stamp != [] && forall i :: 0 <= i < |stamp| ==> IsDigit(stamp[i])
    ensures '/' !in stamp && stamp[0] != '.'
  {
    forall i | 0 <= i < |stamp| ensures stamp[i] != '/' { }
  }

  lemma JpgClean()
    ensures '/' !in "jpg" && '.' !in "jpg"
    ensures Lower("." + "jpg") == ".jpg"
  {
    var l := Lower(".jpg");
    assert "." + "jpg" == ".jpg";
    assert l[0] == '.' && l[1] == 'j' && l[2] == 'p' && l[3] == 'g';
  }

  const DataScheme: string := "data:"
  const Base64Marker: string := ";base64"

  /** `f"data:{mime_type};base64,{base64_str}"`. */
  function DataUrl(mime: string, encoded: string): string
  {
    DataScheme + mime + Base64Marker + "," + encoded
  }

  /**
   * Reading a base64 `data:` URL as section 3 of RFC 2397 lays it out: the
   * scheme, the media type, `;base64`, a comma, the data.
   */
  function ParseDataUrl(url: string): (r: Option<(string, string)>)
    ensures r.Some? ==> url == DataScheme + r.value.0 + Base64Marker + "," + r.value.1
  {
    if |url| >= |DataScheme| && url[..|DataScheme|] == DataScheme && Contains(url[|DataScheme|..], ",") then
      var parts := SplitOnce(url[|DataScheme|..], ",");
      var header := parts.0;
      if |header| >= |Base64Marker| && header[|header| - |Base64Marker|..] == Base64Marker then
        var mime := header[..|header| - |Base64Marker|];
        assert header == mime + Base64Marker;
        DataUrlJoin(url, mime, parts.1);
        Some((mime, parts.1))
      else None
    else None
  }

  /** A url that starts with the scheme and continues with `mime;base64,data` is the concatenation of those parts. */
  lemma DataUrlJoin(url: string, mime: string, data: string)
    requires |url| >= |DataScheme| && url[..|DataScheme|] == DataScheme
    requires url[|DataScheme|..] == mime + Base64Marker + "," + data
    ensures url == DataScheme + mime + Base64Marker + "," + data
  {
    var rest := url[|DataScheme|..];
    assert url == DataScheme + rest;
    assert DataScheme + ((mime + Base64Marker) + "," + data) == (DataScheme + (mime + Base64Marker)) + "," + data;
    assert DataScheme + (mime + Base64Marker) == DataScheme + mime + Base64Marker;
  }

  /** A media type without a comma comes back out of its URL, with the data intact. */
  lemma DataUrlRoundTrip(mime: string, encoded: string)
    requires ',' !in mime
    ensures ParseDataUrl(DataUrl(mime, encoded)) == Some((mime, encoded))
  {
    var url := DataUrl(mime, encoded);
    var header := mime + Base64Marker;
    assert ',' !in header by {
      forall i | 0 <= i < |header| ensures header[i] != ',' {
        if i < |mime| {
          assert header[i] == mime[i];
          assert mime[i] in mime;
        }
      }
    }
    assert url[..|DataScheme|] == DataScheme;
    assert url[|DataScheme|..] == header + "," + encoded;
    SplitOnceAfterClean(header, ",", encoded);
    assert header[|header| - |Base64Marker|..] == Base64Marker;
    assert header[..|header| - |Base64Marker|] == mime;
  }

  lemma ImageTypesCommaFree(m: string)
    requires m in {ImageJpeg, ImagePng, ImageGif, ImageBmp}
    ensures ',' !in m
  {
  }

  /** The screenshot as sent to the vision model: its type follows the upload's name. */
  function ImageDataUrl(picFilename: string, stamp: string, encoded: string): (url: string)
    ensures ParseDataUrl(url) == Some((MimeType(FileName(picFilename, stamp)), encoded))
  {
    var mime := MimeType(FileName(picFilename, stamp));
    ImageTypesCommaFree(mime);
    DataUrlRoundTrip(mime, encoded);
    DataUrl(mime, encoded)
  }

  // ---------------------------------------------------------------- audit operation

  /** The fields of an audited operation the decisions read. */
  datatype AuditOpt = AuditOpt(eventType: string, eventContent: string)

  const ErrorKeywords: seq<string> :=
    ["删除", "delete", "drop", "truncate", "格式化", "format", "rm -rf", "shutdown", "停止", "stop"]

  const AuditKeys: set<string> := {"has_risk", "risk_level", "alarm_message"}

  /**
   * `_get_default_result`'s verdict: a medium risk exactly when a keyword
   * occurs in the lower-cased content, no risk otherwise.
   */
  function DefaultAudit(content: string): (audit: map<string, Json>)
    ensures audit.Keys == AuditKeys
    ensures audit["has_risk"] == JBool(AnyOccurs(Lower(content), ErrorKeywords))
    ensures audit["risk_level"] == JStr(if AnyOccurs(Lower(content), ErrorKeywords) then "medium" else "none")
  {
    if AnyOccurs(Lower(content), ErrorKeywords) then
      map["has_risk" := JBool(true), "risk_level" := JStr("medium"), "alarm_message" := JStr("检测到可能的危险操作关键词")]
    else
      map["has_risk" := JBool(false), "risk_level" := JStr("none"), "alarm_message" := JStr("")]
  }

  const OperationSuffix: string := "操作"

  /** `_get_default_summary`: a fixed text per event type, always ending in "操作". */
  function DefaultSummary(eventType: string): (s: string)
    ensures |s| >= |OperationSuffix| && s[|s| - |OperationSuffix|..] == OperationSuffix
    ensures eventType == "ws_mouse_click" ==> s == "鼠标点击操作"
    ensures eventType == "ws_keyboard" ==> s == "键盘输入操作"
    ensures eventType != "ws_mouse_click" && eventType != "ws_keyboard" && Contains(Lower(eventType), "command") ==> s == "命令执行操作"
    ensures eventType != "ws_mouse_click" && eventType != "ws_keyboard" && !Contains(Lower(eventType), "command") ==> s == eventType + OperationSuffix
  {
    if eventType == "ws_mouse_click" then "鼠标点击操作"
    else if eventType == "ws_keyboard" then "键盘输入操作"
    else if Contains(Lower(eventType), "command") then "命令执行操作"
    else eventType + OperationSuffix
  }

  // ---------------------------------------------------------------- JSON extraction

  predicate Opener(c: char) { c == '{' || c == '[' }

  predicate Closer(c: char) { c == '}' || c == ']' }

  /** The first `{` or `[` of `t`. */
  function FirstOpen(t: string, k: nat): (r: Option<nat>)
    ensures r.Some? ==> k <= r.value < |t| && Opener(t[r.value])
    ensures r.Some? ==> forall j :: k <= j < r.value ==> !Opener(t[j])
    ensures r.None? ==> forall j :: k <= j < |t| ==> !Opener(t[j])
    decreases |t| - k
  {
    if k >= |t| then None
    else if Opener(t[k]) then Some(k)
    else FirstOpen(t, k + 1)
  }

  /** The last `}` or `]` of `t` before index `hi`. */
  function LastClose(t: string, hi: nat): (r: Option<nat>)
    requires hi <= |t|
    ensures r.Some? ==> r.value < hi && Closer(t[r.value])
    ensures r.Some? ==> forall j :: r.value < j < hi ==> !Closer(t[j])
    ensures r.None? ==> forall j :: 0 <= j < hi ==> !Closer(t[j])
  {
    if hi == 0 then None
    else if Closer(t[hi - 1]) then Some(hi - 1)
    else LastClose(t, hi - 1)
  }

  /** What follows a single fence: its first line (the language tag) is dropped when there is a newline. */
  function AfterSingleFence(rest: string): (r: string)
    ensures Stripped(r)
  {
    var inner := Strip(rest);
    if Contains(inner, "\n") then Strip(SplitOnce(inner, "\n").1) else inner
  }

  /** The body between fences, as `split("```")` picks it. */
  function FencedBody(text: string): (r: string)
    requires Contains(text, YwAudit.Fence)
    ensures Stripped(r)
  {
    var rest := SplitOnce(text, YwAudit.Fence).1;
    if Contains(rest, YwAudit.Fence) then Strip(Second(text, YwAudit.Fence)) else AfterSingleFence(rest)
  }

  /**
   * The second attempt of `_parse_json_response`: the body of the first
   * ```` ```json ```` block; else the second piece between fences, or, with
   * a single fence, what follows it minus its first line.
   */
  function UnfenceReply(response: string): (r: Option<string>)
    ensures r.Some? ==> r.value != [] && Stripped(r.value)
  {
    var text := Strip(response);
    var body :=
      if Contains(text, YwAudit.JsonFence) then Strip(Before(Second(text, YwAudit.JsonFence), YwAudit.Fence))
      else if Contains(text, YwAudit.Fence) then FencedBody(text)
      else "";
    if body != [] then Some(body) else None
  }

  /** A ```` ```json ```` opener is itself a fence. */
  lemma JsonFenceIsFence(text: string)
    requires Contains(text, YwAudit.JsonFence)
    ensures Contains(text, YwAudit.Fence)
  {
    var i := Find(text, YwAudit.JsonFence).value;
    assert text[i..i + |YwAudit.JsonFence|][..|YwAudit.Fence|] == text[i..i + |YwAudit.Fence|];
    ContainsAt(text, YwAudit.Fence, i);
  }

  /** Without a fence the second attempt has nothing to decode. */
  lemma UnfencedReplyHasNoBody(response: string)
    requires !Contains(Strip(response), YwAudit.Fence)
    ensures UnfenceReply(response).None?
  {
    if Contains(Strip(response), YwAudit.JsonFence) {
      JsonFenceIsFence(Strip(response));
    }
  }

  /** The text from the first `{`/`[` to the last `}`/`]`, when the one comes before the other. */
  function JsonSlice(text: string): (r: Option<string>)
    ensures r.Some? ==> |r.value| >= 2 && Opener(r.value[0]) && Closer(r.value[|r.value| - 1])
    ensures r.None? <==>
      (FirstOpen(text, 0).None? || LastClose(text, |text|).None? || LastClose(text, |text|).value <= FirstOpen(text, 0).value)
  {
    match FirstOpen(text, 0)
    case None => None
    case Some(start) =>
      match LastClose(text, |text|)
      case None => None
      case Some(end) => if end <= start then None else Some(text[start..end + 1])
  }

  /**
   * `_parse_json_response`: decode the slice of the stripped reply; only
   * when the slice does not decode are the fences tried. No slice gives
   * `None` at once.
   */
  function ParseJsonSlice(response: string, parse: Parser): (r: Option<Json>)
    ensures JsonSlice(Strip(response)).None? ==> r.None?
    ensures JsonSlice(Strip(response)).Some? && parse(JsonSlice(Strip(response)).value).Some? ==>
      r == parse(JsonSlice(Strip(response)).value)
    ensures r.Some? && parse(JsonSlice(Strip(response)).value).None? ==>
      UnfenceReply(response).Some? && r == parse(UnfenceReply(response).value)
    ensures JsonSlice(Strip(response)).Some? && parse(JsonSlice(Strip(response)).value).None? ==>
      r == (if UnfenceReply(response).Some? then parse(UnfenceReply(response).value) else None)
  {
    match JsonSlice(Strip(response))
    case None => None
    case Some(slice) =>
      match parse(slice)
      case Some(j) => Some(j)
      case None =>
        match UnfenceReply(response)
        case Some(inner) => parse(inner)
        case None => None
  }

  /**
   * A reply whose JSON is surrounded by prose without brackets decodes to
   * exactly that JSON.
   */
  lemma ProseAroundJson(pre: string, body: string, post: string, parse: Parser)
    requires Stripped(pre + body + post)
    requires forall i :: 0 <= i < |pre| ==> !Opener(pre[i])
    requires forall i :: 0 <= i < |post| ==> !Closer(post[i])
    requires |body| >= 2
    requires Opener(body[0]) && Closer(body[|body| - 1])
    requires parse(body).Some?
    ensures ParseJsonSlice(pre + body + post, parse) == parse(body)
  {
    StripStripped(pre + body + post);
    JsonSliceAround(pre, body, post);
  }

  /** Brackets only in the body: the slice is the body. */
  lemma JsonSliceAround(pre: string, body: string, post: string)
    requires forall i :: 0 <= i < |pre| ==> !Opener(pre[i])
    requires forall i :: 0 <= i < |post| ==> !Closer(post[i])
    requires |body| >= 2 && Opener(body[0]) && Closer(body[|body| - 1])
    ensures JsonSlice(pre + body + post) == Some(body)
  {
    var t := pre + body + post;
    FirstOpenAfterPrefix(pre, body + post);
    assert t == pre + (body + post);
    LastCloseBeforeSuffix(pre + body, post);
    assert t[|pre|..|pre| + |body|] == body;
  }

  /** The first opener of `pre + rest` is the head of `rest` when `pre` has none. */
  lemma FirstOpenAfterPrefix(pre: string, rest: string)
    requires forall i :: 0 <= i < |pre| ==> !Opener(pre[i])
    requires rest != [] && Opener(rest[0])
    ensures FirstOpen(pre + rest, 0) == Some(|pre|)
  {
    var t := pre + rest;
    forall j | 0 <= j < |pre|
      ensures !Opener(t[j])
    {
      assert t[j] == pre[j];
    }
    assert Opener(t[|pre|]);
  }

  /** The last closer of `front + post` is the last of `front` when `post` has none. */
  lemma LastCloseBeforeSuffix(front: string, post: string)
    requires forall i :: 0 <= i < |post| ==> !Closer(post[i])
    requires front != [] && Closer(front[|front| - 1])
    ensures LastClose(front + post, |front + post|) == Some(|front| - 1)
  {
    var t := front + post;
    forall j | |front| <= j < |t|
      ensures !Closer(t[j])
    {
      assert t[j] == post[j - |front|];
    }
    assert Closer(t[|front| - 1]);
  }

  // ---------------------------------------------------------------- verdict and summary

  /**
   * `_audit_and_summary`: the model's verdict and summary, or the keyword
   * fallback when the call raises, the reply is empty, it holds no
   * decodable JSON, the JSON is falsy, or it is not an object (`.get` raises
   * and is caught). Missing fields take their defaults.
   */
  function AuditAndSummary(reply: Result<string>, parse: Parser, opt: AuditOpt): (r: (map<string, Json>, Json))
    ensures r.0.Keys == AuditKeys
    ensures reply.Failure? || reply == Success("") ==> r == Fallback(opt)
  {
    match reply
    case Failure(_) => Fallback(opt)
    case Success(text) => if text == "" then Fallback(opt) else AuditOfReply(text, parse, opt)
  }

  /** The keyword verdict and the default summary. */
  function Fallback(opt: AuditOpt): (r: (map<string, Json>, Json))
    ensures r.0.Keys == AuditKeys
    ensures r.1 == JStr(DefaultSummary(opt.eventType))
  {
    (DefaultAudit(opt.eventContent), JStr(DefaultSummary(opt.eventType)))
  }

  /** The verdict read from a non-empty reply, or the fallback when it holds no truthy JSON object. */
  function AuditOfReply(text: string, parse: Parser, opt: AuditOpt): (r: (map<string, Json>, Json))
    ensures r.0.Keys == AuditKeys
  {
    match ParseJsonSlice(text, parse)
    case None => Fallback(opt)
    case Some(j) => if !Truthy(j) || !j.JObj? then Fallback(opt) else ModelVerdict(j.fields, opt)
  }

  /** The model's fields, each missing one at its default. */
  function ModelVerdict(fields: seq<(string, Json)>, opt: AuditOpt): (r: (map<string, Json>, Json))
    ensures r.0.Keys == AuditKeys
  {
    (map["has_risk" := FieldOr(fields, "has_risk", JBool(false)),
         "risk_level" := FieldOr(fields, "risk_level", JStr("none")),
         "alarm_message" := FieldOr(fields, "alarm_message", JStr(""))],
     FieldOr(fields, "summary", JStr(DefaultSummary(opt.eventType))))
  }

  /** `has_risk and risk_level != "none"` with the service's own defaults. */
  predicate Alarms(audit: map<string, Json>)
  {
    Truthy(GetOr(audit, "has_risk", JBool(false))) && GetOr(audit, "risk_level", JStr("none")) != JStr("none")
  }

  /** The keyword fallback alarms exactly when a keyword occurs. */
  lemma DefaultAuditAlarms(content: string)
    ensures Alarms(DefaultAudit(content)) <==> AnyOccurs(Lower(content), ErrorKeywords)
  {
  }

  /**
   * When the level is present, the rule agrees with the operations
   * service's; it differs only in the default for a missing level.
   */
  lemma AlarmRulesAgree(audit: map<string, Json>)
    requires "risk_level" in audit
    ensures Alarms(audit) <==> YwAudit.RaisesAlarm(audit)
  {
    if "has_risk" !in audit {
      assert !Truthy(JBool(false)) && !Truthy(JNull);
    }
  }

  lemma AlarmRulesDifferWithoutLevel()
    ensures YwAudit.RaisesAlarm(map["has_risk" := JBool(true)])
    ensures !Alarms(map["has_risk" := JBool(true)])
  {
  }

  const NormalMessage: string := "操作正常"
  const ProcessPrefix: string := "已识别流程: "
  const RiskMessage: string := "发现安全风险"

  /** The code the alarm branch uses; the method's own documentation and the operations service use "300001". */
  const AlarmCodeAsWritten: string := "30001"

  /**
   * The alarm record; `AlarmData` is not among the shown models, so its
   * serialised form is taken as its constructor arguments.
   */
  function AlarmPayload(sessionId: string, alarm: Json, now: string, summary: Json, level: Json): (d: Json)
    ensures d.JObj? && Lookup(d.fields, "equipment_asset") == Some(JStr(sessionId))
    ensures Lookup(d.fields, "risk_level") == Some(level)
  {
    var fields := [("equipment_asset", JStr(sessionId)), ("alarm", alarm), ("alarm_time", JStr(now)),
                   ("work_content", summary), ("risk_level", level)];
    var tail := fields[1..][1..][1..];
    assert Lookup(tail[1..], "risk_level") == Some(level);
    assert Lookup(tail, "risk_level") == Some(level);
    assert Lookup(fields[1..][1..], "risk_level") == Some(level);
    assert Lookup(fields[1..], "risk_level") == Some(level);
    JObj(fields)
  }

  /**
   * The decision at the end of `_llm_risk_audit`, with the alarm code as a
   * parameter. An alarm whose level is not text raises at `.upper()`.
   */
  function RiskResponseWith(alarmCode: string, sessionId: string, audit: map<string, Json>, summary: Json,
                            processName: Option<string>, now: string): (r: Result<Envelopes.R>)
    ensures r.Failure? <==> Alarms(audit) && !GetOr(audit, "risk_level", JStr("none")).JStr?
    ensures r.Success? && Alarms(audit) ==>
      r.value.code == alarmCode && r.value.message == RiskMessage &&
      r.value.data == AlarmPayload(sessionId, GetOr(audit, "alarm_message", JStr("检测到安全风险")), now, summary, audit["risk_level"])
    ensures !Alarms(audit) ==> r.Success? && r.value.code == Envelopes.SuccessCode
    ensures !Alarms(audit) ==> r.value.data == BuildResponseData(sessionId, None, None)
    ensures !Alarms(audit) ==>
      (r.value.message == NormalMessage <==> processName.None? || processName.value == "")
    ensures !Alarms(audit) && processName.Some? && processName.value != "" ==>
      r.value.message == ProcessPrefix + processName.value
  {
    if Alarms(audit) then
      var level := GetOr(audit, "risk_level", JStr("none"));
      if !level.JStr? then Failure("AttributeError: 'upper'")
      else
        var alarm := GetOr(audit, "alarm_message", JStr("检测到安全风险"));
        Success(Envelopes.Fail(RiskMessage, AlarmPayload(sessionId, alarm, now, summary, level), Some(alarmCode)))
    else
      var message := if processName.Some? && processName.value != "" then ProcessPrefix + processName.value else NormalMessage;
      assert processName.Some? && processName.value != "" ==> message[..|ProcessPrefix|] == ProcessPrefix;
      Success(Envelopes.Ok(message, BuildResponseData(sessionId, None, None), None))
  }

  /** The response as the code builds it, with code "30001" on an alarm. */
  function RiskResponseAsWritten(sessionId: string, audit: map<string, Json>, summary: Json,
                                 processName: Option<string>, now: string): (r: Result<Envelopes.R>)
    ensures r.Success? && Alarms(audit) ==> r.value.code == AlarmCodeAsWritten
  {
    RiskResponseWith(AlarmCodeAsWritten, sessionId, audit, summary, processName, now)
  }

  /** The response with the documented severe-alarm code. */
  function RiskResponse(sessionId: string, audit: map<string, Json>, summary: Json,
                        processName: Option<string>, now: string): (r: Result<Envelopes.R>)
    ensures r.Success? && Alarms(audit) ==> r.value.code == YwAudit.SevereCode
    ensures r.Success? && r.value.code == YwAudit.SevereCode ==> Alarms(audit)
  {
    RiskResponseWith(YwAudit.SevereCode, sessionId, audit, summary, processName, now)
  }

  /** A keyword alarm reaches the caller with a code that no other part of the system uses for alarms. */
  lemma AlarmCodeMismatch(sessionId: string, now: string)
    ensures var audit := DefaultAudit("rm -rf /");
      Alarms(audit) &&
      RiskResponseAsWritten(sessionId, audit, JStr(""), None, now).Success? &&
      RiskResponseAsWritten(sessionId, audit, JStr(""), None, now).value.code != YwAudit.SevereCode &&
      RiskResponse(sessionId, audit, JStr(""), None, now).value.code == YwAudit.SevereCode
  {
    var content := "rm -rf /";
    assert Lower(content) == content;
    assert Contains(content, ErrorKeywords[6]) by {
      assert content[0..|"rm -rf"|] == "rm -rf";
      ContainsAt(content, "rm -rf", 0);
    }
    DefaultAuditAlarms(content);
  }

  /**
   * `_llm_risk_audit`: the verdict and summary, then the response. The
   * vision client the service calls is not defined, so in practice every
   * reply is a `Failure` and the keyword fallback decides.
   */
  function LlmRiskAudit(sessionId: string, opt: AuditOpt, reply: Result<string>, parse: Parser,
                        processName: Option<string>, now: string): (r: Result<Envelopes.R>)
    ensures reply.Failure? ==> r.Success?
    ensures reply.Failure? ==> (r.value.code == YwAudit.SevereCode <==> AnyOccurs(Lower(opt.eventContent), ErrorKeywords))
  {
    var (audit, summary) := AuditAndSummary(reply, parse, opt);
    DefaultAuditAlarms(opt.eventContent);
    RiskResponse(sessionId, audit, summary, processName, now)
  }

  // ---------------------------------------------------------------- history context

  /** One operation shown to the model: its event type and stored summary. */
  datatype Operation = Operation(eventType: Json, summary: Json)

  /**
   * The decoded `operation` column of a stored record, when it is text that
   * decodes to an object; the bare `except` skips every other record.
   */
  function OperationFields(record: map<string, Json>, parse: Parser): Option<seq<(string, Json)>>
  {
    if "operation" in record && record["operation"].JStr? then
      match parse(record["operation"].s)
      case Some(JObj(fields)) => Some(fields)
      case _ => None
    else None
  }

  function OperationOf(record: map<string, Json>, fields: seq<(string, Json)>): Operation
  {
    Operation(FieldOr(fields, "event_type", JStr("unknown")), GetOr(record, "summary", JStr("")))
  }

  /** The operations of the readable records, in record order. */
  function Operations(records: seq<map<string, Json>>, parse: Parser): (ops: seq<Operation>)
    ensures |ops| <= |records|
    ensures (forall i :: 0 <= i < |records| ==> OperationFields(records[i], parse).Some?) ==>
      |ops| == |records| &&
      forall i :: 0 <= i < |records| ==> ops[i] == OperationOf(records[i], OperationFields(records[i], parse).value)
  {
    if records == [] then []
    else
      var rest := Operations(records[1..], parse);
      assert forall i :: 1 <= i < |records| ==> records[1..][i - 1] == records[i];
      match OperationFields(records[0], parse)
      case Some(fields) => [OperationOf(records[0], fields)] + rest
      case None => rest
  }

  /** Records whose operation cannot be read contribute nothing. */
  lemma {:induction false} UnreadableSkipped(records: seq<map<string, Json>>, parse: Parser)
    requires forall i :: 0 <= i < |records| ==> OperationFields(records[i], parse).None?
    ensures Operations(records, parse) == []
  {
    if records != [] {
      assert forall i :: 0 <= i < |records[1..]| ==> records[1..][i] == records[i + 1];
      UnreadableSkipped(records[1..], parse);
    }
  }

  /** The stored summaries of earlier screenshots: records with a summary and an image path. */
  function ImageSummaries(records: seq<map<string, Json>>, parse: Parser): (ops: seq<Operation>)
    ensures |ops| <= |Operations(records, parse)|
    ensures forall i :: 0 <= i < |ops| ==> Truthy(ops[i].summary)
  {
    if records == [] then []
    else
      var rest := ImageSummaries(records[1..], parse);
      match OperationFields(records[0], parse)
      case Some(fields) =>
        if Truthy(GetOr(records[0], "summary", JNull)) && Truthy(GetOr(records[0], "image_path", JNull)) then
          [OperationOf(records[0], fields)] + rest
        else rest
      case None => rest
  }

  /** The records considered: `recent_records[-10:]`. */
  function RecentRecords(records: seq<map<string, Json>>): (w: seq<map<string, Json>>)
    ensures w == YwAudit.HistoryWindow(records, 10)
  {
    SliceFrom(records, -10)
  }

  /** Lines numbered from `from`, one per item. */
  function Numbered(items: seq<Operation>, from: nat, line: (nat, Operation) -> string): string
  {
    if items == [] then "" else line(from, items[0]) + Numbered(items[1..], from + 1, line)
  }

  lemma {:induction false} NumberedSnoc(items: seq<Operation>, from: nat, line: (nat, Operation) -> string)
    requires items != []
    ensures Numbered(items, from, line) ==
      Numbered(items[..|items| - 1], from, line) + line(from + |items| - 1, items[|items| - 1])
  {
    if |items| == 1 {
      assert items[..0] == [];
    } else {
      var tail := items[1..];
      var init := items[..|items| - 1];
      var last := line(from + |items| - 1, items[|items| - 1]);
      NumberedSnoc(tail, from + 1, line);
      assert tail[..|tail| - 1] == init[1..];
      assert tail[|tail| - 1] == items[|items| - 1];
      assert Numbered(tail, from + 1, line) == Numbered(init[1..], from + 1, line) + last;
      assert Numbered(init, from, line) == line(from, items[0]) + Numbered(init[1..], from + 1, line);
      Concat3(line(from, items[0]), Numbered(init[1..], from + 1, line), last);
    }
  }

  lemma Concat3(x: string, y: string, z: string)
    ensures x + (y + z) == (x + y) + z
  {
  }

  function OperationLine(i: nat, op: Operation): string
  {
    NatToString(i) + ". " + Show(op.eventType) + " - " + Show(op.summary) + "\n"
  }

  function ImageLine(i: nat, op: Operation): string
  {
    NatToString(i) + ". 操作类型: " + Show(op.eventType) + ", 总结: " + Show(op.summary) + "\n"
  }

  const HistoryHeader: string := "\n\n【最近操作历史】\n"
  const ImagesHeader: string := "\n\n【历史图片总结参考】\n以下是该会话之前上传图片的AI审查总结，请作为参考来理解当前操作的上下文：\n"
  const ImagesFooter: string := "\n⚠️ 注意：这些历史图片总结可以帮助你更好地理解当前操作的上下文和连续性。\n"

  /**
   * The history block of the prompt: empty without readable operations,
   * else the header and the last five operations numbered from 1.
   */
  function HistoryContext(records: seq<map<string, Json>>, parse: Parser): (text: string)
    ensures Operations(RecentRecords(records), parse) == [] <==> text == ""
    ensures text != "" ==>
      text == HistoryHeader + Numbered(YwAudit.HistoryWindow(Operations(RecentRecords(records), parse), 5), 1, OperationLine)
  {
    var ops := Operations(RecentRecords(records), parse);
    if ops == [] then ""
    else HistoryHeader + Numbered(SliceFrom(ops, -5), 1, OperationLine)
  }

  /** Of the window shown, the newest item is always the last line, numbered by how many are shown. */
  lemma NewestShownLast(ops: seq<Operation>, line: (nat, Operation) -> string)
    requires ops != []
    ensures var shown := YwAudit.HistoryWindow(ops, 5);
      Numbered(shown, 1, line) == Numbered(shown[..|shown| - 1], 1, line) + line(Min(5, |ops|), ops[|ops| - 1])
  {
    var shown := YwAudit.HistoryWindow(ops, 5);
    NumberedSnoc(shown, 1, line);
    assert shown[|shown| - 1] == ops[|ops| - 1];
  }

  /** The reference block of earlier screenshot summaries: at most the last five, between a header and a footer. */
  function ImageContext(records: seq<map<string, Json>>, parse: Parser): (text: string)
    ensures ImageSummaries(RecentRecords(records), parse) == [] <==> text == ""
    ensures text != "" ==>
      text == ImagesHeader + Numbered(YwAudit.HistoryWindow(ImageSummaries(RecentRecords(records), parse), 5), 1, ImageLine) + ImagesFooter
  {
    var images := ImageSummaries(RecentRecords(records), parse);
    if images == [] then ""
    else ImagesHeader + Numbered(SliceFrom(images, -5), 1, ImageLine) + ImagesFooter
  }
}
