/** The elevated helper process: it reads its port and token from the
    command line, then answers one JSON request per line on a TCP
    connection, creating file symbolic links on request. The file system
    and the parsing of each line are inputs. */
module Helper {
  import opened Wrappers
  import opened Text
  import opened Json
  import opened Paths

  // ---------------------------------------------------------------------
  // Command line
  // ---------------------------------------------------------------------

  const U16Max: nat := 65535

  datatype ServerArgs = ServerArgs(port: nat, token: string)

  predicate IsPortFlag(a: string) {
    a == "--port" || a == "-p"
  }

  predicate IsTokenFlag(a: string) {
    a == "--token" || a == "-t"
  }

  /** The port and token once the arguments at positions 1 to `n - 1` have
      been looked at; a flag reads the argument after it, wherever that is. */
  function ArgsAfter(args: seq<string>, n: nat): (r: ServerArgs)
    requires n <= |args|
    ensures r.port <= U16Max
  {
    if n <= 1 then ServerArgs(0, "")
    else
      var prev := ArgsAfter(args, n - 1);
      var i := n - 1;
      if IsPortFlag(args[i]) && i + 1 < |args| then
        match ParseUnsigned(args[i + 1], U16Max)
        case Some(p) => prev.(port := p)
        case None => prev
      else if IsTokenFlag(args[i]) && i + 1 < |args| then prev.(token := args[i + 1])
      else prev
  }

  function Min(a: nat, b: nat): nat {
    if a <= b then a else b
  }

  /** The argument loop of `start_server`; `args[0]` is the program. */
  method ParseServerArgs(args: seq<string>) returns (port: nat, token: string)
    ensures ServerArgs(port, token) == ArgsAfter(args, |args|)
    ensures port <= U16Max
  {
    port := 0;
    token := "";
    var i := 1;
    while i < |args|
      invariant 1 <= i
      invariant ServerArgs(port, token) == ArgsAfter(args, Min(i, |args|))
      decreases |args| - i
    {
      if IsPortFlag(args[i]) && i + 1 < |args| {
        var p := ParseUnsigned(args[i + 1], U16Max);
        if p.Some? {
          port := p.value;
        }
      } else if IsTokenFlag(args[i]) && i + 1 < |args| {
        token := args[i + 1];
      }
      i := i + 1;
    }
  }

  /** Without a flag among the arguments the server takes any free port and
      checks no token. */
  lemma {:induction false} DefaultArgs(args: seq<string>, n: nat)
    requires n <= |args|
    requires forall k :: 1 <= k < |args| ==> !IsPortFlag(args[k]) && !IsTokenFlag(args[k])
    ensures ArgsAfter(args, n) == ServerArgs(0, "")
  {
    if n > 1 {
      DefaultArgs(args, n - 1);
    }
  }

  /** A token given last wins over any given before, whatever it reads. */
  lemma LastTokenWins(args: seq<string>, flag: string, t: string)
    requires |args| >= 1 && IsTokenFlag(flag)
    ensures ArgsAfter(args + [flag, t], |args| + 2).token == t
  {
    var all := args + [flag, t];
    assert all[|args|] == flag && all[|args| + 1] == t;
  }

  /** A port given last in range wins over any given before. */
  lemma LastPortWins(args: seq<string>, flag: string, p: nat)
    requires |args| >= 1 && IsPortFlag(flag) && p <= U16Max
    ensures ArgsAfter(args + [flag, DecimalString(p)], |args| + 2).port == p
  {
    var all := args + [flag, DecimalString(p)];
    assert all[|args|] == flag && all[|args| + 1] == DecimalString(p);
    DecimalRoundTrip(p, U16Max);
  }

  /** Up to the last argument the settings only depend on what came before. */
  lemma {:induction false} ArgsAfterPrefix(args: seq<string>, more: seq<string>, n: nat)
    requires n < |args| || (n == |args| && (n <= 1 || (!IsPortFlag(args[n - 1]) && !IsTokenFlag(args[n - 1]))))
    ensures ArgsAfter(args + more, n) == ArgsAfter(args, n)
  {
    if n > 1 {
      ArgsAfterPrefix(args, more, n - 1);
      assert (args + more)[n - 1] == args[n - 1];
      if n < |args| {
        assert (args + more)[n] == args[n];
      }
    }
  }

  /** A port that does not parse as a `u16` leaves the one set before. */
  lemma UnparsablePortKept(args: seq<string>, flag: string, v: string)
    requires |args| >= 1 && !IsPortFlag(args[|args| - 1]) && !IsTokenFlag(args[|args| - 1])
    requires IsPortFlag(flag) && ParseUnsigned(v, U16Max).None?
    ensures ArgsAfter(args + [flag, v], |args| + 2) == ArgsAfter(args, |args|)
  {
    var all := args + [flag, v];
    assert all[|args|] == flag && all[|args| + 1] == v;
    ArgsAfterPrefix(args, [flag, v], |args|);
  }

  // ---------------------------------------------------------------------
  // create_file_symlink
  // ---------------------------------------------------------------------

  /** What `Path::exists`, `is_file` and `is_dir` see at a path; a path
      absent from the map does not exist. */
  datatype Entry = File | Directory

  type FileSystem = map<string, Entry>

  const NoTarget := "目标文件不存在: "
  const TargetNotFile := "目标路径不是文件: "
  const NoLinkDir := "链接目录不存在: "
  const LinkDirNotDir := "链接路径不是目录: "
  const LinkExists := "链接路径已存在: "
  const LinkFailed := "创建符号链接失败: "
  const LinkCreated := "符号链接创建成功: "

  /** The checks of `create_file_symlink` in their order, then the link;
      `made` is what the operating system answers to the link request,
      `None` when it makes the link. */
  function CreateFileSymlink(fs: FileSystem, target: string, linkDir: string, linkName: string, made: Option<string>)
    : (r: Result<string, string>)
    ensures r.Ok? <==> target in fs && fs[target] == File && linkDir in fs && fs[linkDir] == Directory
                       && Join(linkDir, linkName) !in fs && made.None?
    ensures r.Ok? ==> r.value == LinkCreated + Join(linkDir, linkName)
  {
    var link := Join(linkDir, linkName);
    if target !in fs then Err(NoTarget + target)
    else if fs[target] != File then Err(TargetNotFile + target)
    else if linkDir !in fs then Err(NoLinkDir + linkDir)
    else if fs[linkDir] != Directory then Err(LinkDirNotDir + linkDir)
    else if link in fs then Err(LinkExists + link)
    else match made
      case Some(e) => Err(LinkFailed + e)
      case None => Ok(LinkCreated + link)
  }

  /** The file system after the request: the link appears, and reads as the
      file it points to, only when it was made. */
  function AfterCreate(fs: FileSystem, target: string, linkDir: string, linkName: string, made: Option<string>)
    : (r: FileSystem)
    ensures CreateFileSymlink(fs, target, linkDir, linkName, made).Ok? ==> r == fs[Join(linkDir, linkName) := File]
    ensures CreateFileSymlink(fs, target, linkDir, linkName, made).Err? ==> r == fs
  {
    if CreateFileSymlink(fs, target, linkDir, linkName, made).Ok? then fs[Join(linkDir, linkName) := File] else fs
  }

  /** A link is never made over an existing path: the same request a second
      time is refused because the link now exists. */
  lemma CreateTwiceRefused(fs: FileSystem, target: string, linkDir: string, linkName: string, made: Option<string>)
    requires CreateFileSymlink(fs, target, linkDir, linkName, None).Ok?
    ensures var fs' := AfterCreate(fs, target, linkDir, linkName, None);
            CreateFileSymlink(fs', target, linkDir, linkName, made) == Err(LinkExists + Join(linkDir, linkName))
            && AfterCreate(fs', target, linkDir, linkName, made) == fs'
  {
  }

  // ---------------------------------------------------------------------
  // One request
  // ---------------------------------------------------------------------

  /** `SymlinkResponse`. */
  datatype Response = Response(success: bool, message: string)

  const MissingToken := "缺少Token"
  const BadToken := "Token验证失败"
  const Unreadable := "消息格式错误，无法解析Token"
  const ParseFailed := "解析消息失败: "
  const MissingCmd := "缺少cmd参数"
  const UnknownCmd := "未知命令"
  const MissingArgs := "缺少args参数"
  const MissingField := "缺少必要参数"

  /** The token check, which runs only when the server has a token; `None`
      lets the message through. `parsed` is the line parsed as JSON, or the
      parser's error. */
  function TokenCheck(serverToken: string, parsed: Result<Json, string>): (r: Option<Response>)
    ensures r.Some? ==> !r.value.success
    ensures r.None? <==> serverToken == [] || (parsed.Ok? && GetStr(parsed.value, "token") == Some(serverToken))
  {
    if serverToken == [] then None
    else match parsed
      case Err(_) => Some(Response(false, Unreadable))
      case Ok(msg) =>
        match GetStr(msg, "token")
        case None => Some(Response(false, MissingToken))
        case Some(t) => if t != serverToken then Some(Response(false, BadToken)) else None
  }

  datatype CreateArgs = CreateArgs(target: string, path: string, name: string)

  /** The command a message asks for, or why it is refused. */
  function Dispatch(msg: Json): (r: Result<CreateArgs, string>)
    ensures r.Ok? <==> GetStr(msg, "cmd") == Some("create") && Get(msg, "args").Some? && Get(msg, "args").value.JObject?
                       && GetStr(Get(msg, "args").value, "target").Some?
                       && GetStr(Get(msg, "args").value, "path").Some?
                       && GetStr(Get(msg, "args").value, "name").Some?
    ensures r.Ok? ==> var args := Get(msg, "args").value;
                      r.value == CreateArgs(GetStr(args, "target").value, GetStr(args, "path").value, GetStr(args, "name").value)
    ensures r.Err? ==> r.error in {MissingCmd, UnknownCmd, MissingArgs, MissingField}
  {
    match GetStr(msg, "cmd")
    case None => Err(MissingCmd)
    case Some(cmd) =>
      if cmd != "create" then Err(UnknownCmd)
      else match Get(msg, "args")
        case Some(args) =>
          if !args.JObject? then Err(MissingArgs)
          else (match (GetStr(args, "target"), GetStr(args, "path"), GetStr(args, "name"))
            case (Some(target), Some(path), Some(name)) => Ok(CreateArgs(target, path, name))
            case _ => Err(MissingField))
        case None => Err(MissingArgs)
  }

  /** The answer to one line and the file system after it: a refused
      token is answered first, and a request that does not succeed leaves
      the file system as it was. */
  function Respond(serverToken: string, parsed: Result<Json, string>, fs: FileSystem, made: Option<string>)
    : (r: (Response, FileSystem))
    ensures TokenCheck(serverToken, parsed).Some? ==> r == (TokenCheck(serverToken, parsed).value, fs)
    ensures !r.0.success ==> r.1 == fs
  {
    match TokenCheck(serverToken, parsed)
    case Some(refusal) => (refusal, fs)
    case None =>
      match parsed
      case Err(e) => (Response(false, ParseFailed + e), fs)
      case Ok(msg) =>
        match Dispatch(msg)
        case Err(why) => (Response(false, why), fs)
        case Ok(CreateArgs(target, path, name)) =>
          var result := CreateFileSymlink(fs, target, path, name, made);
          var response := match result
            case Ok(message) => Response(true, message)
            case Err(error) => Response(false, error);
          (response, AfterCreate(fs, target, path, name, made))
  }

  /** With a token set, a message without the right token is refused and
      nothing is done. */
  lemma TokenGuardsCommands(serverToken: string, parsed: Result<Json, string>, fs: FileSystem, made: Option<string>)
    requires serverToken != []
    requires parsed.Err? || GetStr(parsed.value, "token") != Some(serverToken)
    ensures var (response, fs') := Respond(serverToken, parsed, fs, made);
            fs' == fs && !response.success
            && response.message == (if parsed.Err? then Unreadable
                                    else if GetStr(parsed.value, "token").None? then MissingToken
                                    else BadToken)
  {
  }

  /** A line that is not JSON gets the token message when a token is set,
      and the parser's error when none is. */
  lemma UnparsableLine(serverToken: string, e: string, fs: FileSystem, made: Option<string>)
    ensures Respond(serverToken, Err(e), fs, made)
            == (Response(false, if serverToken == [] then ParseFailed + e else Unreadable), fs)
  {
  }

  /** The request succeeds exactly when the token passes, the command is a
      complete `create` and the link is made; only then does the file
      system change, and the message is the one `create_file_symlink`
      returns. */
  lemma RespondSucceedsIff(serverToken: string, parsed: Result<Json, string>, fs: FileSystem, made: Option<string>)
    ensures var (response, fs') := Respond(serverToken, parsed, fs, made);
            response.success <==> TokenCheck(serverToken, parsed).None? && parsed.Ok? && Dispatch(parsed.value).Ok?
                                  && var a := Dispatch(parsed.value).value;
                                     CreateFileSymlink(fs, a.target, a.path, a.name, made).Ok?
    ensures var (response, fs') := Respond(serverToken, parsed, fs, made);
            fs' != fs ==> response.success
    ensures var (response, fs') := Respond(serverToken, parsed, fs, made);
            TokenCheck(serverToken, parsed).None? && parsed.Ok? && Dispatch(parsed.value).Ok? ==>
              var a := Dispatch(parsed.value).value;
              var result := CreateFileSymlink(fs, a.target, a.path, a.name, made);
              response.message == (if result.Ok? then result.value else result.error)
  {
  }

  /** Without a server token the `token` member is not looked at. */
  lemma NoTokenNoCheck(parsed: Result<Json, string>, token: string, fs: FileSystem, made: Option<string>)
    requires parsed.Ok? && parsed.value.JObject?
    ensures var withToken := Ok(JObject(parsed.value.fields["token" := JString(token)]));
            Respond([], parsed, fs, made).1 == Respond([], withToken, fs, made).1
  {
    var withToken := JObject(parsed.value.fields["token" := JString(token)]);
    assert GetStr(withToken, "cmd") == GetStr(parsed.value, "cmd");
    assert Get(withToken, "args") == Get(parsed.value, "args");
  }

  // ---------------------------------------------------------------------
  // One connection
  // ---------------------------------------------------------------------

  /** One `read_line` on the connection: a line, parsed, with what the
      operating system would answer to a link request made for it; the end
      of the stream; or a read error. */
  datatype Read =
    | Line(parsed: Result<Json, string>, made: Option<string>)
    | Closed
    | ReadFailed

  /** The responses written on a connection and the file system after it;
      a closed stream or a read error ends it. */
  function Serve(serverToken: string, incoming: seq<Read>, fs: FileSystem): (r: (seq<Response>, FileSystem))
    ensures |r.0| <= |incoming|
  {
    if incoming == [] || !incoming[0].Line? then ([], fs)
    else
      var (response, fs') := Respond(serverToken, incoming[0].parsed, fs, incoming[0].made);
      var (rest, fsEnd) := Serve(serverToken, incoming[1..], fs');
      ([response] + rest, fsEnd)
  }

  /** The loop of `handle_client`: one response per line, until the stream
      ends. */
  method HandleClient(serverToken: string, incoming: seq<Read>, fs0: FileSystem)
    returns (responses: seq<Response>, fs: FileSystem)
    ensures (responses, fs) == Serve(serverToken, incoming, fs0)
  {
    responses := [];
    fs := fs0;
    var i := 0;
    assert incoming[0..] == incoming;
    while i < |incoming| && incoming[i].Line?
      invariant 0 <= i <= |incoming|
      invariant Serve(serverToken, incoming, fs0).0 == responses + Serve(serverToken, incoming[i..], fs).0
      invariant Serve(serverToken, incoming, fs0).1 == Serve(serverToken, incoming[i..], fs).1
    {
      var (response, fs') := Respond(serverToken, incoming[i].parsed, fs, incoming[i].made);
      var rest := incoming[i..];
      assert rest[0] == incoming[i] && rest[1..] == incoming[i + 1..];
      assert Serve(serverToken, rest, fs).0 == [response] + Serve(serverToken, incoming[i + 1..], fs').0;
      responses := responses + [response];
      fs := fs';
      i := i + 1;
    }
    assert Serve(serverToken, incoming[i..], fs) == ([], fs);
    assert responses + [] == responses;
  }

  /** Every line before the end of the stream gets exactly one response. */
  lemma {:induction false} OneResponsePerLine(serverToken: string, incoming: seq<Read>, fs: FileSystem, n: nat)
    requires n <= |incoming| && forall k :: 0 <= k < n ==> incoming[k].Line?
    requires n == |incoming| || !incoming[n].Line?
    ensures |Serve(serverToken, incoming, fs).0| == n
  {
    if n > 0 {
      var (_, fs') := Respond(serverToken, incoming[0].parsed, fs, incoming[0].made);
      OneResponsePerLine(serverToken, incoming[1..], fs', n - 1);
    }
  }

  /** On one connection, the same complete request sent twice makes the
      link once: the second answer says the link exists. */
  lemma SameRequestTwice(serverToken: string, msg: Json, fs: FileSystem, made: Option<string>)
    requires TokenCheck(serverToken, Ok(msg)).None? && Dispatch(msg).Ok?
    requires var a := Dispatch(msg).value; CreateFileSymlink(fs, a.target, a.path, a.name, None).Ok?
    ensures var a := Dispatch(msg).value;
            Serve(serverToken, [Line(Ok(msg), None), Line(Ok(msg), made)], fs).0
            == [Response(true, LinkCreated + Join(a.path, a.name)), Response(false, LinkExists + Join(a.path, a.name))]
  {
    var a := Dispatch(msg).value;
    var incoming := [Line(Ok(msg), None), Line(Ok(msg), made)];
    CreateTwiceRefused(fs, a.target, a.path, a.name, made);
    assert incoming[1..] == [Line(Ok(msg), made)];
    assert incoming[1..][1..] == [];
  }
}
