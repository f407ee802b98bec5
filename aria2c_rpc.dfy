/** The JSON-RPC 2.0 side of `aria2c.rs`: how a request is sent through
    PowerShell with retries, how PowerShell's rendering of the reply is turned
    back into JSON text, and how the `aria2.addUri` and `aria2.tellStatus`
    replies are read. */
module Aria2cRpc {
  import opened Wrappers
  import opened Text
  import opened Json

  // ---------------------------------------------------------------------
  // Replies rendered as one character code per line
  // ---------------------------------------------------------------------

  /** `line.trim().parse::<u8>()` */
  function ByteOfLine(line: string): (r: Option<nat>)
    ensures r.Some? ==> r.value < 256
  {
    ParseUnsigned(Trim(line), 255)
  }

  /** Every line of the reply is a character code. */
  predicate AllByteLines(lines: seq<string>) {
    forall k :: 0 <= k < |lines| ==> ByteOfLine(lines[k]).Some?
  }

  /** The characters of the lines that are codes (`code as char`), in order. */
  function ParsedCodes(lines: seq<string>): (r: string)
    ensures |r| <= |lines|
    ensures AllByteLines(lines) ==>
              |r| == |lines| && forall k :: 0 <= k < |lines| ==> r[k] as int == ByteOfLine(lines[k]).value
  {
    CodesOf(CharOfLine, lines)
  }

  /** The character a code line stands for. */
  function CharOfLine(line: string): Option<char> {
    match ByteOfLine(line)
    case Some(b) => Some(b as char)
    case None => None
  }

  /** The characters `parse` finds in the lines, in order. */
  function CodesOf(parse: string -> Option<char>, lines: seq<string>): (r: string)
    ensures |r| <= |lines|
    ensures (forall k :: 0 <= k < |lines| ==> parse(lines[k]).Some?) ==>
              |r| == |lines| && forall k :: 0 <= k < |lines| ==> r[k] == parse(lines[k]).value
  {
    if lines == [] then []
    else
      var rest := CodesOf(parse, lines[1..]);
      match parse(lines[0])
      case Some(c) => [c] + rest
      case None => rest
  }

  /** The reply text with a reply made only of code lines turned back into
      the characters it stands for. */
  function Decoded(text: string): (r: string)
    ensures !AllByteLines(Lines(text)) ==> r == text
    ensures AllByteLines(Lines(text)) ==> |r| == |Lines(text)|
  {
    var lines := Lines(text);
    if AllByteLines(lines) then ParsedCodes(lines) else text
  }

  /** The loop that pushes one character per parsable line. */
  method DecodeCodeLines(lines: seq<string>) returns (decoded: string)
    ensures decoded == ParsedCodes(lines)
  {
    decoded := [];
    var i := |lines|;
    while i > 0
      invariant 0 <= i <= |lines|
      invariant decoded == ParsedCodes(lines[i..])
    {
      i := i - 1;
      assert lines[i..][1..] == lines[i + 1..];
      match ByteOfLine(lines[i])
      case Some(b) => decoded := [b as char] + decoded;
      case None =>
    }
  }

  /** One character written as its decimal code and a line end. */
  function CodeLine(c: char): string
    requires c as int < 256
  {
    DecimalString(c as int) + "\n"
  }

  predicate Latin1(s: string) {
    forall k :: 0 <= k < |s| ==> s[k] as int < 256
  }

  /** A text rendered one character code per line. */
  function CodeLines(s: string): (r: string)
    requires Latin1(s)
  {
    if s == [] then [] else CodeLine(s[0]) + CodeLines(s[1..])
  }

  /** A code line is read back as its own line. */
  lemma LinesOfCodeLine(c: char, rest: string)
    requires c as int < 256
    ensures Lines(CodeLine(c) + rest) == [DecimalString(c as int)] + Lines(rest)
  {
    var d := DecimalString(c as int);
    assert forall k :: 0 <= k < |d| ==> d[k] != '\n' by {
      forall k | 0 <= k < |d| ensures d[k] != '\n' { assert IsDigit(d[k]); }
    }
    PositionOfAfter(d, '\n', rest);
    var s := d + ['\n'] + rest;
    assert CodeLine(c) + rest == s;
    assert s[..|d|] == d && s[|d| + 1..] == rest;
    assert IsDigit(d[|d| - 1]);
  }

  /** A decimal code is read back as the character it was written for. */
  lemma ByteOfCode(c: char)
    requires c as int < 256
    ensures ByteOfLine(DecimalString(c as int)) == Some(c as int)
  {
    var d := DecimalString(c as int);
    assert IsDigit(d[0]) && IsDigit(d[|d| - 1]);
    TrimUntouched(d);
    DecimalRoundTrip(c as int, 255);
  }

  /** The lines of a rendered text are the codes of its characters. */
  lemma {:induction false} LinesOfCodeLines(s: string)
    requires Latin1(s)
    ensures var lines := Lines(CodeLines(s));
            |lines| == |s| && forall k :: 0 <= k < |s| ==> lines[k] == DecimalString(s[k] as int)
  {
    if s != [] {
      LinesOfCodeLine(s[0], CodeLines(s[1..]));
      LinesOfCodeLines(s[1..]);
    }
  }

  /** Rendering a text one code per line and decoding the reply gives the
      text back. */
  lemma DecodedCodeLines(s: string)
    requires s != [] && Latin1(s)
    ensures Decoded(CodeLines(s)) == s
  {
    var lines := Lines(CodeLines(s));
    LinesOfCodeLines(s);
    forall k | 0 <= k < |lines| ensures ByteOfLine(lines[k]) == Some(s[k] as int) {
      ByteOfCode(s[k]);
    }
    assert AllByteLines(lines);
  }

  // ---------------------------------------------------------------------
  // Turning PowerShell's rendering of the reply back into JSON text
  // ---------------------------------------------------------------------

  const TellStatus := "aria2.tellStatus"
  const AddUri := "aria2.addUri"

  /** `str::starts_with('{')` */
  predicate StartsWithBrace(s: string) {
    s != [] && s[0] == '{'
  }

  /** The JSON text of a reply whose `result` is `resultText`. */
  function ResultResponse(resultText: string): string {
    "{\"jsonrpc\":\"2.0\",\"id\":1,\"result\":" + resultText + "}"
  }

  /** The reply rebuilt around a GID read from a table. */
  function GidResponse(gid: string): string {
    ResultResponse("\"" + gid + "\"")
  }

  /** A value of a PowerShell object written into JSON text: quoted and
      bracketed values are kept, a nested object is quoted, and anything else
      (a number, a boolean) is kept. */
  function PsValueJson(value: string): string {
    if StartsWith(value, "\"") && EndsWith(value, "\"") then value
    else if StartsWith(value, "[") && EndsWith(value, "]") then value
    else if StartsWith(value, "@") then "\"" + value + "\""
    else value
  }

  /** The entry written for pair `i`: nothing when it has no `=`; the comma
      goes after every pair but the last, counted among all pairs. */
  function PairEntry(pairs: seq<string>, i: nat): string
    requires i < |pairs|
  {
    var pair := pairs[i];
    match PositionOf(pair, '=')
    case None => ""
    case Some(q) =>
      EntryLine(PsEntry(Trim(pair[..q]), Trim(pair[q + 1..])), i == |pairs| - 1)
  }

  /** An entry on its own line, with a comma unless it is the last. */
  function EntryLine(entry: string, last: bool): string {
    if last then entry + "\n" else entry + ",\n"
  }

  /** The object written around its entries. */
  function ObjectText(body: string): string {
    "{\n" + body + "}"
  }

  /** One `"key": value` entry. */
  function PsEntry(key: string, value: string): string {
    "\"" + key + "\": " + PsValueJson(value)
  }

  function PairEntries(pairs: seq<string>, i: nat): string
    decreases |pairs| - i
  {
    if i >= |pairs| then "" else PairEntry(pairs, i) + PairEntries(pairs, i + 1)
  }

  function TrimAll(parts: seq<string>): (r: seq<string>)
    ensures |r| == |parts| && forall k :: 0 <= k < |parts| ==> r[k] == Trim(parts[k])
  {
    if parts == [] then [] else [Trim(parts[0])] + TrimAll(parts[1..])
  }

  /** `@{k1=v1; k2=v2}` written as a JSON object, one entry per line. */
  function PsObjectJson(obj: string): string
    requires |obj| >= 3
  {
    ObjectText(PairEntries(TrimAll(Split(obj[2..|obj| - 1], ';')), 0))
  }

  /** The reply rebuilt around the PowerShell object `trimmed[s..=e]`. */
  function PsReply(trimmed: string, s: nat, e: nat): string
    requires s + 2 <= e < |trimmed|
  {
    ResultResponse(PsObjectJson(trimmed[s..e + 1]))
  }

  /** For a `tellStatus` reply: where the PowerShell object starts
      (`find("@{")`) and where the last `}` is (`rfind('}')`). */
  function PsSpan(trimmed: string, rpcMethod: string): (r: Option<(nat, nat)>)
    ensures r.Some? ==> r.value.0 + 1 < |trimmed| && trimmed[r.value.0] == '@' && trimmed[r.value.0 + 1] == '{'
                        && r.value.1 < |trimmed| && trimmed[r.value.1] == '}'
  {
    if rpcMethod != TellStatus then None
    else match (IndexOf(trimmed, "@{"), LastIndexOfChar(trimmed, '}'))
      case (Some(s), Some(e)) =>
        OccursAtPair(trimmed, "@{", s);
        Some((s, e))
      case _ => None
  }

  /** The first `{` and the last `}` of the reply. */
  function BraceSpan(t: string): (r: Option<(nat, nat)>)
    ensures r.Some? ==> r.value.0 < |t| && t[r.value.0] == '{' && r.value.1 < |t| && t[r.value.1] == '}'
  {
    match (PositionOf(t, '{'), LastIndexOfChar(t, '}'))
    case (Some(s), Some(e)) => Some((s, e))
    case _ => None
  }

  /** The header of PowerShell's table rendering names the three columns. */
  predicate IsTableHeader(line: string) {
    var h := ToLowerAscii(line);
    Contains(h, "id") && Contains(h, "jsonrpc") && Contains(h, "result")
  }

  /** The third white-space separated token of a table row, if it has one. */
  function GidOfRow(line: string): Option<string> {
    var parts := SplitWhitespace(line);
    if |parts| >= 3 then Some(parts[2]) else None
  }

  /** The first row, from `from` on, that has three tokens. */
  function FirstGidRow(rows: seq<string>, from: nat): (r: Option<nat>)
    ensures r.None? ==> forall k :: from <= k < |rows| ==> GidOfRow(rows[k]).None?
    ensures r.Some? ==> from <= r.value < |rows| && GidOfRow(rows[r.value]).Some?
                        && forall k :: from <= k < r.value ==> GidOfRow(rows[k]).None?
    decreases |rows| - from
  {
    if from >= |rows| then None
    else if GidOfRow(rows[from]).Some? then Some(from)
    else FirstGidRow(rows, from + 1)
  }

  function FirstGid(rows: seq<string>, from: nat): Option<string> {
    match FirstGidRow(rows, from)
    case Some(k) => GidOfRow(rows[k])
    case None => None
  }

  /** For an `addUri` reply rendered as a table: the GID of the first data
      row, the rows after the header and its underline. */
  function TableGid(trimmed: string, rpcMethod: string): Option<string> {
    if rpcMethod != AddUri then None
    else
      var lines := Lines(trimmed);
      if |lines| >= 3 && IsTableHeader(lines[0]) then FirstGid(lines, 2) else None
  }

  /** What is left when no JSON could be cut out: the rebuilt GID reply, or
      the text as it is. */
  function Fallback(trimmed: string, rpcMethod: string, t: string): string {
    match TableGid(trimmed, rpcMethod)
    case Some(g) => GidResponse(g)
    case None => t
  }

  /** What `send_rpc_request_via_powershell` makes of a non-empty reply. */
  datatype Normalised = Returned(text: string) | Panicked

  /** The PowerShell-object step as written: a slice `[start..=end]` whose
      end lies before its start panics. */
  function PsStepAsWritten(trimmed: string, rpcMethod: string): (r: Option<Normalised>)
    ensures r.None? ==> PsStep(trimmed, rpcMethod).None?
    ensures r.Some? && r.value.Returned? ==> PsStep(trimmed, rpcMethod) == Some(r.value.text)
  {
    match PsSpan(trimmed, rpcMethod)
    case Some((s, e)) =>
      if e < s then Some(Panicked) else Some(Returned(PsReply(trimmed, s, e)))
    case None => None
  }

  /** The brace-trimming step as written. */
  function BraceStepAsWritten(t: string): (r: Option<Normalised>)
    ensures r.None? ==> BraceStep(t).None?
    ensures r.Some? && r.value.Returned? ==> BraceStep(t) == Some(r.value.text)
  {
    match BraceSpan(t)
    case Some((s, e)) => if e + 1 < s then Some(Panicked) else Some(Returned(t[s..e + 1]))
    case None => None
  }

  /** The normalisation as written: wherever it does not panic, the
      guarded normalisation returns the same text. */
  function NormaliseAsWritten(text: string, rpcMethod: string): (r: Normalised)
    ensures r.Returned? ==> r.text == Normalise(text, rpcMethod)
  {
    var t := Decoded(text);
    var trimmed := Trim(t);
    if StartsWithBrace(trimmed) then Returned(t)
    else match PsStepAsWritten(trimmed, rpcMethod)
      case Some(n) => n
      case None =>
        match BraceStepAsWritten(t)
        case Some(n) => n
        case None => Returned(Fallback(trimmed, rpcMethod, t))
  }

  /** The PowerShell-object step, taken only when the object has its `}`. */
  function PsStep(trimmed: string, rpcMethod: string): Option<string> {
    match PsSpan(trimmed, rpcMethod)
    case Some((s, e)) =>
      if e < s then None else Some(PsReply(trimmed, s, e))
    case None => None
  }

  /** The brace-trimming step, taken only when the slice exists. */
  function BraceStep(t: string): (r: Option<string>)
    ensures r.Some? ==> r.value == [] || (r.value[0] == '{' && r.value[|r.value| - 1] == '}')
  {
    match BraceSpan(t)
    case Some((s, e)) => if e + 1 < s then None else Some(t[s..e + 1])
    case None => None
  }

  /** The normalisation of an already decoded reply, each slice guarded so
      that a step whose slice does not exist is passed over. */
  function NormaliseDecoded(t: string, rpcMethod: string): (r: string)
    ensures StartsWithBrace(Trim(t)) ==> r == t
  {
    var trimmed := Trim(t);
    if StartsWithBrace(trimmed) then t
    else match PsStep(trimmed, rpcMethod)
      case Some(j) => j
      case None =>
        match BraceStep(t)
        case Some(b) => b
        case None => Fallback(trimmed, rpcMethod, t)
  }

  function Normalise(text: string, rpcMethod: string): string {
    NormaliseDecoded(Decoded(text), rpcMethod)
  }

  /** A row `id jsonrpc gid` gives its third word. */
  lemma GidOfThreeWords(id: string, version: string, gid: string)
    requires id != [] && NoWhiteSpace(id) && version != [] && NoWhiteSpace(version)
    requires gid != [] && NoWhiteSpace(gid)
    ensures GidOfRow(id + (" " + (version + (" " + gid)))) == Some(gid)
  {
    SplitWhitespaceOfThreeWords(id, version, gid);
  }

  /** A table whose first data row has three words yields its third. */
  lemma TableGidOfRow(trimmed: string, id: string, version: string, gid: string)
    requires var lines := Lines(trimmed);
             |lines| >= 3 && IsTableHeader(lines[0])
             && lines[2] == id + (" " + (version + (" " + gid)))
    requires id != [] && NoWhiteSpace(id) && version != [] && NoWhiteSpace(version)
    requires gid != [] && NoWhiteSpace(gid)
    ensures TableGid(trimmed, AddUri) == Some(gid)
  {
    GidOfThreeWords(id, version, gid);
    assert FirstGidRow(Lines(trimmed), 2) == Some(2);
  }

  /** A reply without `{` keeps none after trimming. */
  lemma TrimKeepsNoBrace(t: string)
    requires forall k :: 0 <= k < |t| ==> t[k] != '{'
    ensures !StartsWithBrace(Trim(t))
  {
    var u := TrimStart(t);
    var r := TrimEnd(u);
    if r != [] {
      assert r[0] == u[0] == t[|t| - |u|];
    }
  }

  /** An `addUri` reply rendered as a table, without any brace, is rebuilt
      around the GID of its first data row. */
  lemma NormaliseTable(t: string, id: string, version: string, gid: string)
    requires forall k :: 0 <= k < |t| ==> t[k] != '{'
    requires var lines := Lines(Trim(t));
             |lines| >= 3 && IsTableHeader(lines[0])
             && lines[2] == id + (" " + (version + (" " + gid)))
    requires id != [] && NoWhiteSpace(id) && version != [] && NoWhiteSpace(version)
    requires gid != [] && NoWhiteSpace(gid)
    ensures NormaliseDecoded(t, AddUri) == GidResponse(gid)
  {
    TableGidOfRow(Trim(t), id, version, gid);
    TrimKeepsNoBrace(t);
    assert BraceSpan(t).None?;
  }

  /** The last `c` of `a + [c] + b` is the one after `a`, when `b` has none. */
  lemma {:induction false} LastIndexOfCharBefore(a: string, c: char, b: string)
    requires forall k :: 0 <= k < |b| ==> b[k] != c
    ensures LastIndexOfChar(a + [c] + b, c) == Some(|a|)
    decreases |b|
  {
    var s := a + [c] + b;
    if b == [] {
      assert s[|s| - 1] == c;
    } else {
      var b' := b[..|b| - 1];
      assert s[|s| - 1] == b[|b| - 1];
      assert s[..|s| - 1] == a + [c] + b';
      LastIndexOfCharBefore(a, c, b');
    }
  }

  /** A JSON object as the text between its braces. */
  function Braced(mid: string): string {
    "{" + mid + "}"
  }

  /** A reply with text before and after an object. */
  function Wrapped(pre: string, mid: string, post: string): string {
    pre + Braced(mid) + post
  }

  /** Where the brace step cuts a reply that wraps one object. */
  lemma BraceStepOfWrapped(pre: string, mid: string, post: string)
    requires forall k :: 0 <= k < |pre| ==> pre[k] != '{'
    requires forall k :: 0 <= k < |post| ==> post[k] != '}'
    ensures BraceStep(Wrapped(pre, mid, post)) == Some(Braced(mid))
  {
    var t := Wrapped(pre, mid, post);
    PositionOfAfter(pre, '{', mid + "}" + post);
    assert pre + ['{'] + (mid + "}" + post) == t;
    LastIndexOfCharBefore(pre + "{" + mid, '}', post);
    assert pre + "{" + mid + ['}'] + post == t;
    assert BraceSpan(t) == Some((|pre|, |pre| + 1 + |mid|));
    assert t[|pre|..|pre| + 1 + |mid| + 1] == Braced(mid);
  }

  /** Whatever PowerShell prints around a JSON object, the object is cut out
      from its first `{` to its last `}`. */
  lemma NormaliseCutsBraces(pre: string, mid: string, post: string, rpcMethod: string)
    requires forall k :: 0 <= k < |pre| ==> pre[k] != '{'
    requires forall k :: 0 <= k < |post| ==> post[k] != '}'
    requires rpcMethod != TellStatus
    requires !StartsWithBrace(Trim(Wrapped(pre, mid, post)))
    ensures NormaliseDecoded(Wrapped(pre, mid, post), rpcMethod) == Braced(mid)
  {
    BraceStepOfWrapped(pre, mid, post);
  }

  /** PowerShell's rendering of an object with one pair. */
  function PsObject(key: string, value: string): string {
    "@{" + Pair(key, value) + "}"
  }

  predicate Trimmed(s: string) {
    s != [] && !IsWhiteSpace(s[0]) && !IsWhiteSpace(s[|s| - 1])
  }

  /** A `key=value` pair of a PowerShell object. */
  function Pair(key: string, value: string): string {
    key + ['='] + value
  }

  /** A pair is cut at the `=` after its key. */
  lemma CutPair(key: string, value: string)
    requires forall k :: 0 <= k < |key| ==> key[k] != '='
    ensures var pair := Pair(key, value);
            PositionOf(pair, '=') == Some(|key|) && pair[..|key|] == key && pair[|key| + 1..] == value
  {
    PositionOfAfter(key, '=', value);
    var pair := Pair(key, value);
    assert pair[..|key|] == key && pair[|key| + 1..] == value;
  }

  /** The entry of a lone `key=value` pair. */
  lemma EntryOfOnePair(key: string, value: string)
    requires Trimmed(key) && Trimmed(value)
    requires forall k :: 0 <= k < |key| ==> key[k] != '='
    ensures PairEntries([Pair(key, value)], 0) == EntryLine(PsEntry(key, value), true)
  {
    var pair := Pair(key, value);
    TrimUntouched(key);
    TrimUntouched(value);
    CutPair(key, value);
    assert PairEntry([pair], 0) == EntryLine(PsEntry(key, value), true);
    assert PairEntries([pair], 0) == PairEntry([pair], 0) + PairEntries([pair], 1);
  }

  /** The pairs of an object with one pair. */
  lemma PairsOfOnePair(key: string, value: string)
    requires Trimmed(key) && Trimmed(value)
    requires forall k :: 0 <= k < |key| ==> key[k] != ';'
    requires forall k :: 0 <= k < |value| ==> value[k] != ';'
    ensures var obj := PsObject(key, value);
            TrimAll(Split(obj[2..|obj| - 1], ';')) == [Pair(key, value)]
  {
    var obj := PsObject(key, value);
    var pair := Pair(key, value);
    assert obj[2..|obj| - 1] == pair;
    forall k | 0 <= k < |pair| ensures pair[k] != ';' {
      if k < |key| { assert pair[k] == key[k]; }
      else if k > |key| { assert pair[k] == value[k - |key| - 1]; }
    }
    SplitWithout(pair, ';');
    TrimUntouched(pair);
  }

  /** An object with one pair is written as one entry, without a comma. */
  lemma PsObjectOfOnePair(key: string, value: string)
    requires Trimmed(key) && Trimmed(value)
    requires forall k :: 0 <= k < |key| ==> key[k] != '=' && key[k] != ';'
    requires forall k :: 0 <= k < |value| ==> value[k] != ';'
    ensures PsObjectJson(PsObject(key, value)) == ObjectText(EntryLine(PsEntry(key, value), true))
  {
    PairsOfOnePair(key, value);
    EntryOfOnePair(key, value);
  }

  /** A one-line reply that does not start like a number is left as it is. */
  lemma DecodedOneLine(t: string)
    requires t != [] && forall k :: 0 <= k < |t| ==> t[k] != '\n'
    requires !IsWhiteSpace(t[0]) && !IsWhiteSpace(t[|t| - 1]) && !IsDigit(t[0]) && t[0] != '+'
    ensures Decoded(t) == t && Trim(t) == t
  {
    LinesOfOneLine(t);
    TrimUntouched(t);
    assert ByteOfLine(t).None?;
  }

  /** `} {` has its last `}` before its first `{`: the brace slice panics,
      where the guarded step passes it over. */
  lemma BraceSlicePanics(rpcMethod: string)
    requires rpcMethod != TellStatus
    ensures NormaliseAsWritten("} {", rpcMethod) == Panicked
    ensures Normalise("} {", rpcMethod) == Fallback("} {", rpcMethod, "} {")
  {
    var t := "} {";
    DecodedOneLine(t);
    SpanOfBraceSample();
    assert PsSpan(t, rpcMethod).None?;
  }

  /** Where the brace step looks in `} {`. */
  lemma SpanOfBraceSample()
    ensures BraceSpan("} {") == Some((2, 0))
  {
    var t := "} {";
    assert t[0] == '}' && t[1] == ' ' && t[2] == '{';
    assert PositionOf(t, '{') == Some(2);
    assert LastIndexOfChar(t, '}') == Some(0);
  }

  /** Where the steps look in `} @{`. */
  lemma SpansOfPsSample()
    ensures PsSpan("} @{", TellStatus) == Some((2, 0))
    ensures BraceSpan("} @{") == Some((3, 0))
  {
    var t := "} @{";
    assert t[0] == '}' && t[1] == ' ' && t[2] == '@' && t[3] == '{';
    assert OccursAt(t, "@{", 2);
    assert !OccursAt(t, "@{", 0) && !OccursAt(t, "@{", 1);
    assert IndexOf(t, "@{") == Some(2);
    assert LastIndexOfChar(t, '}') == Some(0);
    assert PositionOf(t, '{') == Some(3);
  }

  /** A `tellStatus` reply `} @{` has its last `}` before the object: the
      object slice panics, where the guarded steps return the reply as is. */
  lemma PsSlicePanics()
    ensures NormaliseAsWritten("} @{", TellStatus) == Panicked
    ensures Normalise("} @{", TellStatus) == "} @{"
  {
    var t := "} @{";
    DecodedOneLine(t);
    SpansOfPsSample();
    PanicsBeforeObject(t, TellStatus, 2, 0);
    assert BraceStep(t).None?;
    assert TableGid(t, TellStatus).None?;
  }

  /** A decoded reply whose object starts after its last `}`: the object
      slice as written panics, and the guarded normalisation goes on to the
      brace step. */
  lemma PanicsBeforeObject(t: string, rpcMethod: string, s: nat, e: nat)
    requires Decoded(t) == t && Trim(t) == t && !StartsWithBrace(t)
    requires PsSpan(t, rpcMethod) == Some((s, e)) && e < s
    ensures NormaliseAsWritten(t, rpcMethod) == Panicked
    ensures Normalise(t, rpcMethod) == match BraceStep(t) case Some(b) => b case None => Fallback(t, rpcMethod, t)
  {
  }

  // ---------------------------------------------------------------------
  // Requests
  // ---------------------------------------------------------------------

  /** A JSON-RPC 2.0 request as the backend builds it: version "2.0" and
      id 1 are fixed. */
  datatype Request = Request(rpcMethod: string, params: seq<Json>)

  function RequestJson(req: Request): Json {
    JObject(map["jsonrpc" := JString("2.0"), "method" := JString(req.rpcMethod),
                "params" := JArray(req.params), "id" := JNumber(1)])
  }

  const TokenPrefix := "token:"

  /** The secret token passed as the first parameter of every call. */
  function TokenParam(secret: string): Json {
    JString(TokenPrefix + secret)
  }

  /** The secret a token parameter carries. */
  function SecretOf(param: Json): Option<string> {
    if param.JString? && StartsWith(param.s, TokenPrefix) then Some(param.s[|TokenPrefix|..]) else None
  }

  /** The options of an `addUri` call. */
  function AddUriOptions(savePath: string, filename: string): Json {
    JObject(map["dir" := JString(savePath), "out" := JString(filename), "continue" := JBool(true),
                "max-connection-per-server" := JNumber(16), "split" := JNumber(16),
                "console-log-level" := JString("notice")])
  }

  /** The token parameter gives back its secret. */
  lemma SecretOfToken(secret: string)
    ensures SecretOf(TokenParam(secret)) == Some(secret)
  {
    assert (TokenPrefix + secret)[..|TokenPrefix|] == TokenPrefix;
    assert (TokenPrefix + secret)[|TokenPrefix|..] == secret;
  }

  /** `aria2.addUri` with the token, the one URL and the options. */
  function AddUriRequest(secret: string, url: string, savePath: string, filename: string): (r: Request)
    ensures r.rpcMethod == AddUri && |r.params| == 3 && SecretOf(r.params[0]) == Some(secret)
    ensures r.params[1] == JArray([JString(url)])
  {
    SecretOfToken(secret);
    Request(AddUri, [TokenParam(secret), JArray([JString(url)]), AddUriOptions(savePath, filename)])
  }

  /** `aria2.tellStatus` with the token and the GID. */
  function TellStatusRequest(secret: string, gid: string): (r: Request)
    ensures r.rpcMethod == TellStatus && |r.params| == 2 && SecretOf(r.params[0]) == Some(secret)
    ensures r.params[1] == JString(gid)
  {
    SecretOfToken(secret);
    Request(TellStatus, [TokenParam(secret), JString(gid)])
  }

  /** What aria2 reads from an `addUri` request: the secret, the URL, and
      where to save the file under which name. */
  lemma AddUriRequestReadsBack(secret: string, url: string, savePath: string, filename: string)
    ensures var req := AddUriRequest(secret, url, savePath, filename);
            var p := req.params;
            GetStr(RequestJson(req), "method") == Some(AddUri)
            && |p| == 3 && SecretOf(p[0]) == Some(secret) && p[1] == JArray([JString(url)])
            && GetStr(p[2], "dir") == Some(savePath) && GetStr(p[2], "out") == Some(filename)
  {
  }

  /** `str::replace("'", "''")`: the request as a PowerShell single-quoted
      string. */
  function QuoteForPowerShell(json: string): string {
    ReplaceAll(json, "'", "''")
  }

  /** PowerShell reads a doubled quote in a single-quoted string as one quote,
      so the request it sends is the one that was quoted. */
  lemma {:induction false} QuoteRoundTrip(json: string)
    ensures ReplaceAll(QuoteForPowerShell(json), "''", "'") == json
    decreases |json|
  {
    if json != [] {
      var rest := QuoteForPowerShell(json[1..]);
      QuoteRoundTrip(json[1..]);
      if json[0] == '\'' {
        assert json[..1] == "'";
        assert QuoteForPowerShell(json) == "''" + rest;
        assert ("''" + rest)[..2] == "''" && ("''" + rest)[2..] == rest;
        assert json == "'" + json[1..];
      } else {
        assert json[..1] != "'";
        assert QuoteForPowerShell(json) == [json[0]] + rest;
        var q := [json[0]] + rest;
        if |q| >= 2 {
          assert q[..2] != "''" by { assert q[0] == json[0]; }
          assert q[1..] == rest;
        }
        assert json == [json[0]] + json[1..];
      }
    }
  }

  // ---------------------------------------------------------------------
  // Sending a request through PowerShell, with retries
  // ---------------------------------------------------------------------

  /** How one run of `powershell.exe` ended. */
  datatype Run =
    | SpawnFailed(reason: string)
    | Exited(success: bool, stdout: string, stderr: string)

  /** The run gave a reply: a zero exit status and a non-empty output. */
  predicate Answered(run: Run) {
    run.Exited? && run.success && run.stdout != []
  }

  function SpawnFailure(reason: string): string {
    "启动PowerShell进程失败: " + reason
  }

  function CommandFailure(stderr: string): string {
    "PowerShell命令执行失败: " + stderr
  }

  const EmptyReply := "RPC响应为空"
  const UnknownError := "未知错误"

  /** The error a run that gave no reply leaves behind. */
  function RunError(run: Run): string
    requires !Answered(run)
  {
    match run
    case SpawnFailed(e) => SpawnFailure(e)
    case Exited(ok, _, err) => if ok then EmptyReply else CommandFailure(err)
  }

  /** Attempts are numbered 0 to `MaxRetries`. */
  const MaxRetries: nat := 3

  /** The first attempt, from `from` on, that gives a reply. */
  function FirstAnswered(runs: nat -> Run, from: nat): (r: Option<nat>)
    requires from <= MaxRetries + 1
    ensures r.Some? ==> from <= r.value <= MaxRetries && Answered(runs(r.value))
                        && forall k :: from <= k < r.value ==> !Answered(runs(k))
    ensures r.None? ==> forall k :: from <= k <= MaxRetries ==> !Answered(runs(k))
    decreases MaxRetries + 1 - from
  {
    if from > MaxRetries then None
    else if Answered(runs(from)) then Some(from)
    else FirstAnswered(runs, from + 1)
  }

  function Pow2(n: nat): (r: nat)
    ensures r >= 1
  {
    if n == 0 then 1 else 2 * Pow2(n - 1)
  }

  /** The waits before the first `n` retries: 500 ms, doubled each time. */
  function Backoff(n: nat): (r: seq<nat>)
    ensures |r| == n && forall k :: 0 <= k < n ==> r[k] == 500 * Pow2(k)
  {
    if n == 0 then [] else Backoff(n - 1) + [500 * Pow2(n - 1)]
  }

  /** The reply of the first attempt that gives one, normalised; otherwise
      the error the last attempt left. */
  function RpcReply(rpcMethod: string, runs: nat -> Run): Result<string, string> {
    match FirstAnswered(runs, 0)
    case Some(k) => Ok(Normalise(runs(k).stdout, rpcMethod))
    case None => Err(RunError(runs(MaxRetries)))
  }

  /** The waits taken before the request was answered or given up. */
  function RpcWaits(runs: nat -> Run): seq<nat> {
    match FirstAnswered(runs, 0)
    case Some(k) => Backoff(k)
    case None => Backoff(MaxRetries)
  }

  /** One attempt of `send_rpc_request_via_powershell`: a successful run
      with output gives the normalised reply; any other run gives the error
      the attempt records. */
  method RunOnce(run: Run, rpcMethod: string) returns (reply: Option<string>, error: string)
    ensures reply.Some? <==> Answered(run)
    ensures reply.Some? ==> reply.value == Normalise(run.stdout, rpcMethod)
    ensures reply.None? ==> error == RunError(run)
  {
    reply, error := None, UnknownError;
    match run {
      case SpawnFailed(e) =>
        error := SpawnFailure(e);
      case Exited(ok, out, err) =>
        if ok {
          if out != [] {
            var text := out;
            if AllByteLines(Lines(text)) {
              text := DecodeCodeLines(Lines(text));
            }
            reply := Some(NormaliseDecoded(text, rpcMethod));
          } else {
            error := EmptyReply;
          }
        } else {
          error := CommandFailure(err);
        }
    }
  }

  /** `send_rpc_request_via_powershell`: at most four attempts, waiting
      500, 1000 and 2000 ms between them and not after the last. */
  method SendRpcRequest(request: Request, runs: nat -> Run) returns (r: Result<string, string>, waits: seq<nat>)
    ensures r == RpcReply(request.rpcMethod, runs)
    ensures waits == RpcWaits(runs)
  {
    var retryInterval: nat := 500;
    var lastError := UnknownError;
    waits := [];
    var attempt: nat := 0;
    while attempt <= MaxRetries
      invariant attempt <= MaxRetries + 1
      invariant FirstAnswered(runs, 0) == FirstAnswered(runs, attempt)
      invariant waits == Backoff(if attempt <= MaxRetries then attempt else MaxRetries)
      invariant retryInterval == 500 * Pow2(if attempt <= MaxRetries then attempt else MaxRetries)
      invariant attempt > 0 ==> !Answered(runs(attempt - 1)) && lastError == RunError(runs(attempt - 1))
    {
      var reply, error := RunOnce(runs(attempt), request.rpcMethod);
      if reply.Some? {
        r := Ok(reply.value);
        return;
      }
      lastError := error;
      if attempt < MaxRetries {
        waits := waits + [retryInterval];
        retryInterval := retryInterval * 2;
      }
      attempt := attempt + 1;
    }
    r := Err(lastError);
  }

  function Sum(s: seq<nat>): nat {
    if s == [] then 0 else Sum(s[..|s| - 1]) + s[|s| - 1]
  }

  /** The first `n` waits add up to 500 ms times 2^n - 1. */
  lemma {:induction false} BackoffTotal(n: nat)
    ensures Sum(Backoff(n)) == 500 * (Pow2(n) - 1)
  {
    if n > 0 {
      var b := Backoff(n);
      assert b[..|b| - 1] == Backoff(n - 1);
      BackoffTotal(n - 1);
    }
  }

  /** However the attempts end, the request waits at most three times and
      3.5 seconds in all. */
  lemma WaitsBounded(runs: nat -> Run)
    ensures |RpcWaits(runs)| <= MaxRetries
    ensures Sum(RpcWaits(runs)) <= 3500
  {
    var n := |RpcWaits(runs)|;
    BackoffTotal(n);
    assert Pow2(n) <= 8 by {
      assert n <= 3;
      assert Pow2(0) == 1 && Pow2(1) == 2 && Pow2(2) == 4 && Pow2(3) == 8;
    }
  }

  // ---------------------------------------------------------------------
  // Reading replies
  // ---------------------------------------------------------------------

  const U64Max: nat := 0xFFFF_FFFF_FFFF_FFFF

  /** The members serde reads into `Aria2JsonRpcResponse<T>`; an absent or
      `null` member is `None`. */
  datatype Envelope = Envelope(result: Option<Json>, error: Option<Json>)

  /** An optional member: absent and `null` both read as nothing. */
  function Member(v: Json, key: string): (r: Option<Json>)
    ensures r.Some? ==> Get(v, key) == r && !r.value.JNull?
    ensures r.None? ==> Get(v, key).None? || Get(v, key) == Some(JNull)
  {
    match Get(v, key)
    case Some(JNull) => None
    case other => other
  }

  /** The reply has the members serde requires: `jsonrpc` a string and `id`
      a `u64`. */
  predicate WellFormedReply(v: Json) {
    GetStr(v, "jsonrpc").Some?
    && match Get(v, "id")
       case Some(JNumber(n)) => 0 <= n <= U64Max
       case _ => false
  }

  function DecodeEnvelope(v: Json): (r: Option<Envelope>)
    ensures r.Some? <==> WellFormedReply(v)
    ensures r.Some? ==> r.value.result == Member(v, "result") && r.value.error == Member(v, "error")
  {
    if WellFormedReply(v) then Some(Envelope(Member(v, "result"), Member(v, "error"))) else None
  }

  function ParseFailure(e: string): string {
    "解析RPC响应失败: " + e
  }

  function AddFailure(error: string): string {
    "添加下载任务失败: " + error
  }

  const AddUnknownFailure := "添加下载任务失败: 未知错误"

  /** What `add_download` makes of the outcome of its `addUri` call. The JSON
      text parser is `parse`; serde's message for a reply of the wrong shape
      is `shapeError`, and `{:?}` of an error value is `describe`. */
  function AddDownloadReply(sent: Result<string, string>, parse: string -> Result<Json, string>,
                            shapeError: Json -> string, describe: Json -> string): (r: Result<string, string>)
    ensures sent.Err? ==> r == sent
    ensures sent.Ok? && parse(sent.value).Err? ==> r == Err(ParseFailure(parse(sent.value).error))
    ensures r.Ok? <==> sent.Ok? && parse(sent.value).Ok? && WellFormedReply(parse(sent.value).value)
                       && Member(parse(sent.value).value, "result").Some?
                       && Member(parse(sent.value).value, "result").value.JString?
    ensures r.Ok? ==> Member(parse(sent.value).value, "result") == Some(JString(r.value))
  {
    match sent
    case Err(e) => Err(e)
    case Ok(text) =>
      match parse(text)
      case Err(e) => Err(ParseFailure(e))
      case Ok(v) =>
        match DecodeEnvelope(v)
        case None => Err(ParseFailure(shapeError(v)))
        case Some(env) =>
          match env.result
          case Some(JString(gid)) => Ok(gid)
          case Some(_) => Err(ParseFailure(shapeError(v)))
          case None =>
            match env.error
            case Some(e) => Err(AddFailure(describe(e)))
            case None => Err(AddUnknownFailure)
  }

  /** `add_download`: send `addUri` and read the GID from the reply. */
  method AddDownload(secret: string, url: string, savePath: string, filename: string, runs: nat -> Run,
                     parse: string -> Result<Json, string>, shapeError: Json -> string,
                     describe: Json -> string)
    returns (r: Result<string, string>)
    ensures r == AddDownloadReply(RpcReply(AddUri, runs), parse, shapeError, describe)
  {
    var request := AddUriRequest(secret, url, savePath, filename);
    var sent, _ := SendRpcRequest(request, runs);
    r := AddDownloadReply(sent, parse, shapeError, describe);
  }

  /** The reply rebuilt from a table, once parsed, is that GID. */
  function GidReplyJson(gid: string): Json {
    JObject(map["jsonrpc" := JString("2.0"), "id" := JNumber(1), "result" := JString(gid)])
  }

  /** The GID read from a table is the one `add_download` returns. */
  lemma AddDownloadOfTableGid(gid: string, parse: string -> Result<Json, string>,
                              shapeError: Json -> string, describe: Json -> string)
    requires parse(GidResponse(gid)) == Ok(GidReplyJson(gid))
    ensures AddDownloadReply(Ok(GidResponse(gid)), parse, shapeError, describe) == Ok(gid)
  {
    assert WellFormedReply(GidReplyJson(gid));
  }

  /** A reply with an `error` and no `result` is a failure that carries it. */
  lemma AddDownloadOfError(v: Json, text: string, parse: string -> Result<Json, string>,
                           shapeError: Json -> string, describe: Json -> string)
    requires parse(text) == Ok(v) && WellFormedReply(v)
    requires Member(v, "result").None? && Member(v, "error").Some?
    ensures AddDownloadReply(Ok(text), parse, shapeError, describe)
            == Err(AddFailure(describe(Member(v, "error").value)))
  {
  }

  /** The progress fields of a `tellStatus` reply; the floating-point
      percentage and size derived from them are not part of this model. */
  datatype DownloadStatus = DownloadStatus(connections: nat, completedLength: nat, totalLength: nat,
                                           downloadSpeed: nat)

  /** A numeric field: a string member that parses as a `u64`, else the
      default. */
  function FieldOr(obj: Json, key: string, default: nat): (r: nat)
    ensures GetStr(obj, key).Some? && ParseUnsigned(GetStr(obj, key).value, U64Max).Some?
            ==> r == ParseUnsigned(GetStr(obj, key).value, U64Max).value
    ensures !(GetStr(obj, key).Some? && ParseUnsigned(GetStr(obj, key).value, U64Max).Some?) ==> r == default
  {
    match GetStr(obj, key)
    case Some(s) => ParseUnsigned(s, U64Max).UnwrapOr(default)
    case None => default
  }

  /** The status of an object `result`; nothing for any other `result`. */
  function StatusOf(result: Option<Json>): (r: Option<DownloadStatus>)
    ensures r.Some? <==> result.Some? && result.value.JObject?
  {
    match result
    case Some(JObject(fields)) =>
      var obj := result.value;
      Some(DownloadStatus(FieldOr(obj, "connections", 0), FieldOr(obj, "completedLength", 0),
                          FieldOr(obj, "totalLength", 1), FieldOr(obj, "downloadSpeed", 0)))
    case _ => None
  }

  /** What `get_download_status` makes of the outcome of its `tellStatus`
      call. */
  function StatusReply(sent: Result<string, string>, parse: string -> Result<Json, string>,
                       shapeError: Json -> string): (r: Result<Option<DownloadStatus>, string>)
    ensures sent.Err? ==> r == Err(sent.error)
    ensures r.Ok? <==> sent.Ok? && parse(sent.value).Ok? && WellFormedReply(parse(sent.value).value)
    ensures r.Ok? ==> r.value == StatusOf(Member(parse(sent.value).value, "result"))
  {
    match sent
    case Err(e) => Err(e)
    case Ok(text) =>
      match parse(text)
      case Err(e) => Err(ParseFailure(e))
      case Ok(v) =>
        match DecodeEnvelope(v)
        case None => Err(ParseFailure(shapeError(v)))
        case Some(env) => Ok(StatusOf(env.result))
  }

  /** `get_download_status` */
  method GetDownloadStatus(secret: string, gid: string, runs: nat -> Run,
                           parse: string -> Result<Json, string>, shapeError: Json -> string)
    returns (r: Result<Option<DownloadStatus>, string>)
    ensures r == StatusReply(RpcReply(TellStatus, runs), parse, shapeError)
  {
    var request := TellStatusRequest(secret, gid);
    var sent, _ := SendRpcRequest(request, runs);
    r := StatusReply(sent, parse, shapeError);
  }

  /** The status aria2 reports, with every number written in decimal. */
  function StatusJson(st: DownloadStatus): Json {
    JObject(map["connections" := JString(DecimalString(st.connections)),
                "completedLength" := JString(DecimalString(st.completedLength)),
                "totalLength" := JString(DecimalString(st.totalLength)),
                "downloadSpeed" := JString(DecimalString(st.downloadSpeed))])
  }

  predicate InU64(st: DownloadStatus) {
    st.connections <= U64Max && st.completedLength <= U64Max
    && st.totalLength <= U64Max && st.downloadSpeed <= U64Max
  }

  /** Every field aria2 reports within `u64` is read back as it was. */
  lemma StatusRoundTrip(st: DownloadStatus)
    requires InU64(st)
    ensures StatusOf(Some(StatusJson(st))) == Some(st)
  {
    DecimalRoundTrip(st.connections, U64Max);
    DecimalRoundTrip(st.completedLength, U64Max);
    DecimalRoundTrip(st.totalLength, U64Max);
    DecimalRoundTrip(st.downloadSpeed, U64Max);
  }

  /** Missing fields read as no connection, nothing done and nothing
      downloading, out of a total of 1. */
  lemma StatusDefaults()
    ensures StatusOf(Some(JObject(map[]))) == Some(DownloadStatus(0, 0, 1, 0))
  {
  }

  /** A field given as a JSON number, not a string, also takes the default. */
  lemma NumericFieldIgnored(n: int)
    ensures FieldOr(JObject(map["totalLength" := JNumber(n)]), "totalLength", 1) == 1
  {
  }
}
