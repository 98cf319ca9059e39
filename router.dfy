/**
 * The command dispatcher (ServerApp/WebSocketTest/Core/Router.cs): a command
 * is split at its first space into a verb and an argument, and the verb
 * chooses a handler.  Synchronous handlers answer at once; list_dir,
 * download_file and a valid start_cam launch a background producer and
 * answer with an info acknowledgement.  Here the launch is a tag in the
 * result, and each producer is a sequential method returning the messages
 * it sends.  The operating-system services the handlers call are an input
 * `handle` giving each call's return value or exception message.
 */
module Router {
  import opened Wrappers
  import opened Text
  import opened Protocol
  import JsonResponse
  import FileService

  // ---------------------------------------------------------------- splitting

  /** The position of the first space, if any. */
  function FirstSpace(s: string): (r: Option<nat>)
    ensures r.Some? ==> r.value < |s| && s[r.value] == ' ' && ' ' !in s[..r.value]
    ensures r.None? ==> ' ' !in s
  {
    if s == [] then None
    else if s[0] == ' ' then Some(0)
    else
      var r := FirstSpace(s[1..]);
      if r.Some? then
        assert s[..r.value + 1] == [s[0]] + s[1..][..r.value];
        Some(r.value + 1)
      else
        assert s == [s[0]] + s[1..];
        None
  }

  /**
   * message.Split(' ', 2) with both parts trimmed: the verb is the text
   * before the first space, the argument the rest, or "" without a space.
   */
  function SplitCommand(message: string): (r: (string, string))
    ensures ' ' !in r.0
    ensures ' ' !in message ==> r == (Trim(message), "")
    ensures FirstSpace(message).Some? ==> var i := FirstSpace(message).value;
      r == (Trim(message[..i]), Trim(message[i + 1..]))
  {
    match FirstSpace(message)
    case None => (Trim(message), "")
    case Some(i) =>
      TrimSubstring(message[..i]);
      (Trim(message[..i]), Trim(message[i + 1..]))
  }

  /** Trimming takes a contiguous part of its input, so it adds no character. */
  lemma TrimSubstring(s: string)
    ensures forall c :: c in Trim(s) ==> c in s
  {
    var a := TrimStart(s);
    var b := TrimEnd(a);
    forall c | c in b ensures c in s {
      var k :| 0 <= k < |b| && b[k] == c;
      assert a[k] == c;
      assert s[|s| - |a| + k] == c;
    }
  }

  lemma TrimOfTrimmed(s: string)
    requires s == [] || (!IsWhiteSpace(s[0]) && !IsWhiteSpace(s[|s| - 1]))
    ensures Trim(s) == s
  {
  }

  /**
   * A verb with no white space, a space and an already trimmed argument
   * split back into that verb and that argument.
   */
  lemma SplitJoin(verb: string, arg: string)
    requires verb != [] && forall k :: 0 <= k < |verb| ==> !IsWhiteSpace(verb[k])
    requires arg == [] || (!IsWhiteSpace(arg[0]) && !IsWhiteSpace(arg[|arg| - 1]))
    ensures SplitCommand(verb + " " + arg) == (verb, arg)
  {
    var m := verb + " " + arg;
    assert m[|verb|] == ' ';
    assert ' ' !in verb by {
      forall k | 0 <= k < |verb| ensures verb[k] != ' ' {
        assert !IsWhiteSpace(verb[k]);
      }
    }
    var i := FirstSpace(m).value;
    assert m[..i] == verb;
    assert m[i + 1..] == arg;
    TrimOfTrimmed(verb);
    TrimOfTrimmed(arg);
  }

  // ---------------------------------------------------------------- dispatch

  /** The synchronous service calls a command can make. */
  datatype Call =
    | ListApps
    | StopApp(name: string)
    | StartApp(path: string)
    | ListProcesses
    | KillProcess(pid: int)
    | GetScreen
    | KeylogStart
    | KeylogStop
    | Shutdown
    | Restart
    | StopCam

  /** What a call did: returned a string (ignored for void calls), or threw with a message. */
  datatype Outcome = Returned(value: string) | Threw(message: string)

  /** The background producers a command can launch. */
  datatype Producer = ListDirTask(path: string) | DownloadTask(path: string) | CameraTask(duration: int)


  /** The verbs the router knows. */
  datatype Verb =
    | CmdListApps | CmdStopApp | CmdStartApp | CmdListProcesses | CmdKillProcess
    | CmdListDir | CmdDownloadFile | CmdGetScreen | CmdKeylogStart | CmdKeylogStop
    | CmdShutdown | CmdRestart | CmdStartCam | CmdStopCam | CmdPing

  /** The text of each verb. */
  function VerbName(v: Verb): string {
    match v
    case CmdListApps => "listApps"
    case CmdStopApp => "stopApp"
    case CmdStartApp => "startApp"
    case CmdListProcesses => "listProcesses"
    case CmdKillProcess => "killProcess"
    case CmdListDir => "list_dir"
    case CmdDownloadFile => "download_file"
    case CmdGetScreen => "get_screen"
    case CmdKeylogStart => "keylog_start"
    case CmdKeylogStop => "keylog_stop"
    case CmdShutdown => "shutdown"
    case CmdRestart => "restart"
    case CmdStartCam => "start_cam"
    case CmdStopCam => "stop_cam"
    case CmdPing => "PING"
  }

  /** The verb a command word names, compared case-sensitively; None for an unknown word. */
  function ParseVerb(cmd: string): (r: Option<Verb>)
    ensures r.Some? ==> VerbName(r.value) == cmd
  {
    if cmd == "listApps" then Some(CmdListApps)
    else if cmd == "stopApp" then Some(CmdStopApp)
    else if cmd == "startApp" then Some(CmdStartApp)
    else if cmd == "listProcesses" then Some(CmdListProcesses)
    else if cmd == "killProcess" then Some(CmdKillProcess)
    else if cmd == "list_dir" then Some(CmdListDir)
    else if cmd == "download_file" then Some(CmdDownloadFile)
    else if cmd == "get_screen" then Some(CmdGetScreen)
    else if cmd == "keylog_start" then Some(CmdKeylogStart)
    else if cmd == "keylog_stop" then Some(CmdKeylogStop)
    else if cmd == "shutdown" then Some(CmdShutdown)
    else if cmd == "restart" then Some(CmdRestart)
    else if cmd == "start_cam" then Some(CmdStartCam)
    else if cmd == "stop_cam" then Some(CmdStopCam)
    else if cmd == "PING" then Some(CmdPing)
    else None
  }

  /** Every verb is recognised by its own name. */
  lemma ParseVerbName(v: Verb)
    ensures ParseVerb(VerbName(v)) == Some(v)
  {
  }

  /** The immediate reply, the synchronous call made (if any) and the producer launched (if any). */
  datatype Dispatched = Dispatched(reply: Answer, call: Option<Call>, launched: Option<Producer>)

  const PidError: string := "PID phải là số"
  const DurationError: string := "Duration phải từ 5-300 giây"
  const KeylogPrefix: string := "{\"type\": \"keylog_data\", \"data\": \""
  const KeylogSuffix: string := "\"}"

  /** The logged keys with carriage returns dropped, line feeds and quotes escaped. */
  function SafeLogs(logs: string): string {
    ReplaceChar(ReplaceChar(ReplaceChar(logs, '\r', ""), '\n', "\\n"), '"', "\\\"")
  }

  /** The keylog_data message. */
  function KeylogData(logs: string): string {
    KeylogPrefix + SafeLogs(logs) + KeylogSuffix
  }

  /** How a synchronous verb answers once its call has returned a value. */
  function Format(v: Verb, value: string): Answer {
    match v
    case CmdKeylogStart => Envelope(JsonResponse.Succeeded, "Đã bắt đầu ghi phím (Keylogger Started).")
    case CmdKeylogStop => Plain(KeylogData(value))
    case CmdShutdown => Envelope(JsonResponse.Succeeded, "Lệnh tắt máy đã được gửi.")
    case CmdRestart => Envelope(JsonResponse.Succeeded, "Lệnh khởi động lại đã được gửi.")
    case CmdStopCam => Envelope(JsonResponse.Informed, "Stopping recording...")
    case _ => Plain(value)
  }

  /** A synchronous call answered as its verb formats it; an exception becomes an error envelope. */
  function Sync(v: Verb, call: Call, handle: Call -> Outcome): (r: Dispatched)
    ensures r.call == Some(call) && r.launched.None?
    ensures handle(call).Threw? ==> r.reply == Envelope(JsonResponse.Failed, "Lỗi Server: " + handle(call).message)
  {
    match handle(call)
    case Returned(value) => Dispatched(Format(v, value), Some(call), None)
    case Threw(m) => Dispatched(Envelope(JsonResponse.Failed, "Lỗi Server: " + m), Some(call), None)
  }

  /** Whether a trimmed start_cam argument is a whole number of seconds from 5 to 300. */
  predicate ValidDuration(arg: string) {
    ParseInt32(arg).Some? && 5 <= ParseInt32(arg).value <= 300
  }

  /** The acknowledgement a launch is answered with at once. */
  function Acknowledgement(p: Producer): Answer {
    match p
    case ListDirTask(_) => Envelope(JsonResponse.Informed, "Listing directory...")
    case DownloadTask(_) => Envelope(JsonResponse.Informed, "Starting download...")
    case CameraTask(_) => Envelope(JsonResponse.Informed, "Starting camera...")
  }

  /** Launching a producer: no service call, an info acknowledgement as reply. */
  function Launch(p: Producer): (r: Dispatched)
    ensures r.reply.Envelope? && r.reply.status == JsonResponse.Informed
  {
    Dispatched(Acknowledgement(p), None, Some(p))
  }

  /** The verbs that make one service call and answer with what it returned. */
  predicate IsPlainSync(v: Verb) {
    !(v in {CmdKillProcess, CmdListDir, CmdDownloadFile, CmdStartCam, CmdPing})
  }

  /** The service call a plain synchronous verb makes. */
  function PlainCall(v: Verb, arg: string): Call
    requires IsPlainSync(v)
  {
    match v
    case CmdListApps => ListApps
    case CmdStopApp => StopApp(arg)
    case CmdStartApp => StartApp(arg)
    case CmdListProcesses => ListProcesses
    case CmdGetScreen => GetScreen
    case CmdKeylogStart => KeylogStart
    case CmdKeylogStop => KeylogStop
    case CmdShutdown => Shutdown
    case CmdRestart => Restart
    case CmdStopCam => StopCam
  }

  /** The reply to a known verb with its argument. */
  function Handle(v: Verb, arg: string, handle: Call -> Outcome): (r: Dispatched)
    ensures r.launched.Some? ==> r == Launch(r.launched.value)
    ensures r.call.Some? && handle(r.call.value).Threw? ==>
      r.reply == Envelope(JsonResponse.Failed, "Lỗi Server: " + handle(r.call.value).message)
    ensures r.launched.Some? <==> (v in {CmdListDir, CmdDownloadFile} || (v == CmdStartCam && ValidDuration(arg)))
  {
    match v
    case CmdKillProcess =>
      var pid := ParseInt32(arg);
      if pid.Some? then Sync(v, KillProcess(pid.value), handle)
      else Dispatched(Envelope(JsonResponse.Failed, PidError), None, None)
    case CmdListDir => Launch(ListDirTask(arg))
    case CmdDownloadFile => Launch(DownloadTask(arg))
    case CmdStartCam =>
      if !ValidDuration(arg) then Dispatched(Envelope(JsonResponse.Failed, DurationError), None, None)
      else Launch(CameraTask(ParseInt32(arg).value))
    case CmdPing => Dispatched(Plain("PONG"), None, None)
    case _ => Sync(v, PlainCall(v, arg), handle)
  }

  /** Router.Dispatch: a known verb is handled with its argument; an unknown one is echoed back unchanged. */
  function Dispatch(message: string, handle: Call -> Outcome): (r: Dispatched)
    ensures ParseVerb(SplitCommand(message).0).None? ==> r == Dispatched(Plain(message), None, None)
    ensures ParseVerb(SplitCommand(message).0).Some? ==>
      r == Handle(ParseVerb(SplitCommand(message).0).value, SplitCommand(message).1, handle)
    ensures r.launched.Some? ==> r == Launch(r.launched.value)
    ensures r.call.Some? && handle(r.call.value).Threw? ==>
      r.reply == Envelope(JsonResponse.Failed, "Lỗi Server: " + handle(r.call.value).message)
  {
    var (cmd, arg) := SplitCommand(message);
    match ParseVerb(cmd)
    case None => Dispatched(Plain(message), None, None)
    case Some(v) => Handle(v, arg, handle)
  }

  // ---------------------------------------------------------------- dispatch properties

  /** PING is answered with PONG, whatever follows it and whatever the services do. */
  lemma PingPong(arg: string, handle: Call -> Outcome)
    ensures Handle(CmdPing, arg, handle) == Dispatched(Plain("PONG"), None, None)
  {
  }

  /** A killProcess argument that is not a 32-bit integer is refused and nothing is killed. */
  lemma KillNeedsNumber(arg: string, handle: Call -> Outcome)
    ensures var r := Handle(CmdKillProcess, arg, handle);
      (ParseInt32(arg).None? <==> r == Dispatched(Envelope(JsonResponse.Failed, PidError), None, None))
      && (ParseInt32(arg).Some? ==> r.call == Some(KillProcess(ParseInt32(arg).value)))
  {
  }

  /**
   * start_cam launches the camera producer for the parsed duration exactly
   * when the argument is an integer from 5 to 300; otherwise it answers
   * with the duration error and launches nothing.
   */
  lemma StartCamValidation(arg: string, handle: Call -> Outcome)
    ensures var r := Handle(CmdStartCam, arg, handle);
      (ValidDuration(arg) ==> r == Launch(CameraTask(ParseInt32(arg).value)))
      && (!ValidDuration(arg) ==> r == Dispatched(Envelope(JsonResponse.Failed, DurationError), None, None))
  {
  }

  /** list_dir and download_file always launch their producer on the argument and acknowledge at once. */
  lemma ProducersAcknowledge(arg: string, handle: Call -> Outcome)
    ensures Handle(CmdListDir, arg, handle) == Launch(ListDirTask(arg))
    ensures Handle(CmdDownloadFile, arg, handle) == Launch(DownloadTask(arg))
  {
  }

  /**
   * Every synchronous service call's exception is answered with an error
   * envelope carrying its message, readable whenever the message has no
   * control character but the line feed.
   */
  lemma HandlerErrorsBecomeReplies(message: string, handle: Call -> Outcome)
    requires Dispatch(message, handle).call.Some?
    requires handle(Dispatch(message, handle).call.value).Threw?
    ensures var r := Dispatch(message, handle);
      var m := "Lỗi Server: " + handle(r.call.value).message;
      JsonResponse.ParseReply(Wire(r.reply)) == if JsonResponse.Printable(m) then Some((JsonResponse.Failed, m)) else None
  {
    WireEnvelope(JsonResponse.Failed, "Lỗi Server: " + handle(Dispatch(message, handle).call.value).message);
  }

  /** The escaped keylog text never holds a raw line feed or carriage return. */
  lemma SafeLogsOneLine(logs: string)
    ensures '\n' !in SafeLogs(logs) && '\r' !in SafeLogs(logs)
  {
    var a := ReplaceChar(logs, '\r', "");
    var b := ReplaceChar(a, '\n', "\\n");
    assert "\\n" == ['\\', 'n'];
    assert "\\\"" == ['\\', '"'];
    ReplaceRemoves(logs, '\r', "");
    ReplaceKeepsOut(a, '\n', "\\n", '\r');
    ReplaceRemoves(a, '\n', "\\n");
    ReplaceKeepsOut(b, '"', "\\\"", '\r');
    ReplaceKeepsOut(b, '"', "\\\"", '\n');
  }

  /** The keylog_data message never holds a raw line feed or carriage return. */
  lemma KeylogDataIsOneLine(logs: string)
    ensures '\n' !in KeylogData(logs) && '\r' !in KeylogData(logs)
  {
    SafeLogsOneLine(logs);
    KeylogFrameOneLine();
    NotInConcat(KeylogPrefix, SafeLogs(logs), KeylogSuffix, '\n');
    NotInConcat(KeylogPrefix, SafeLogs(logs), KeylogSuffix, '\r');
  }

  lemma KeylogFrameOneLine()
    ensures '\n' !in KeylogPrefix && '\r' !in KeylogPrefix && '\n' !in KeylogSuffix && '\r' !in KeylogSuffix
  {
  }

  lemma NotInConcat(p: string, m: string, q: string, c: char)
    requires c !in p && c !in m && c !in q
    ensures c !in p + m + q
  {
  }

  /** Replacing c by a text without c leaves no c. */
  lemma {:induction false} ReplaceRemoves(s: string, c: char, r: string)
    requires c !in r
    ensures c !in ReplaceChar(s, c, r)
    decreases |s|
  {
    if s != [] {
      ReplaceRemoves(s[1..], c, r);
    }
  }

  /** Replacing by a text without d adds no d. */
  lemma {:induction false} ReplaceKeepsOut(s: string, c: char, r: string, d: char)
    requires d !in s && d !in r
    ensures d !in ReplaceChar(s, c, r)
    decreases |s|
  {
    if s != [] {
      assert d !in s[1..] by {
        forall k | 0 <= k < |s[1..]| ensures s[1..][k] != d {
          assert s[1..][k] == s[k + 1];
        }
      }
      ReplaceKeepsOut(s[1..], c, r, d);
    }
  }

  // ---------------------------------------------------------------- producers

  /** What the recording service sends for a duration, and the exception it ends with, if any. */
  datatype Recording = Recording(sent: seq<Message>, failure: Option<string>)

  /** Everything a producer needs from its surroundings. */
  datatype Environment = Environment(
    svc: FileService.Service,
    host: FileService.Host,
    before: (string, string) -> bool,
    grant: nat -> nat,
    record: int -> Recording)

  /** The messages of the list_dir task: the listing, or the error it raised. */
  function ListDirMessages(env: Environment, path: string): seq<Message> {
    match FileService.ListingOf(env.svc, env.host, path, env.before)
    case Ok(items) => [FileList(path, items)]
    case Err(e) => [Reply(Envelope(JsonResponse.Failed, "List error: " + FileService.ErrorMessage(e)))]
  }

  /** The messages of the download_file task: what the download sent, then the error it raised, if any. */
  function DownloadMessages(env: Environment, path: string): seq<Message> {
    var (sent, failure) := FileService.DownloadSpec(env.svc, env.host, path, true, env.grant);
    sent + if failure.Some? then [Reply(Envelope(JsonResponse.Failed, "Download error: " + FileService.ErrorMessage(failure.value)))] else []
  }

  /** The messages of the start_cam task: the info, what the recording sent, then its error, if any. */
  function CameraMessages(env: Environment, duration: int): seq<Message> {
    var rec := env.record(duration);
    [Reply(Envelope(JsonResponse.Informed, "Đang khởi động camera (" + IntToString(duration) + "s)..."))] + rec.sent
      + if rec.failure.Some? then [Reply(Envelope(JsonResponse.Failed, "Lỗi camera: " + rec.failure.value))] else []
  }

  /**
   * The body of a launched Task.Run: the producer runs to the end
   * and an exception it throws is sent as an error envelope, never rethrown.
   */
  method RunProducer(p: Producer, env: Environment) returns (sent: seq<Message>)
    ensures p.ListDirTask? ==> sent == ListDirMessages(env, p.path)
    ensures p.DownloadTask? ==> sent == DownloadMessages(env, p.path)
    ensures p.CameraTask? ==> sent == CameraMessages(env, p.duration)
  {
    match p
    case ListDirTask(path) =>
      var listing := FileService.ListDirectory(env.svc, env.host, path, env.before);
      if listing.Ok? {
        sent := [listing.value];
      } else {
        sent := [Reply(Envelope(JsonResponse.Failed, "List error: " + FileService.ErrorMessage(listing.error)))];
      }
    case DownloadTask(path) =>
      var failure;
      sent, failure := FileService.DownloadFile(env.svc, env.host, path, true, env.grant);
      if failure.Some? {
        sent := sent + [Reply(Envelope(JsonResponse.Failed, "Download error: " + FileService.ErrorMessage(failure.value)))];
      }
    case CameraTask(duration) =>
      sent := CameraMessages(env, duration);
  }

  /**
   * A download that fails after file_start ends with an error envelope in
   * place of file_end; one that fails before sends that envelope alone.
   */
  lemma DownloadFailureReported(env: Environment, path: string)
    requires FileService.DownloadSpec(env.svc, env.host, path, true, env.grant).1.Some?
    ensures var sent := DownloadMessages(env, path);
      var e := FileService.DownloadSpec(env.svc, env.host, path, true, env.grant).1.value;
      |sent| >= 1 && sent[|sent| - 1] == Reply(Envelope(JsonResponse.Failed, "Download error: " + FileService.ErrorMessage(e)))
      && (forall k :: 0 <= k < |sent| ==> !sent[k].FileEnd?)
      && (FileService.GetFileMetadata(env.svc, env.host, path).Err? ==> |sent| == 1)
  {
    var (before, failure) := FileService.DownloadSpec(env.svc, env.host, path, true, env.grant);
    var last := Reply(Envelope(JsonResponse.Failed, "Download error: " + FileService.ErrorMessage(failure.value)));
    assert DownloadMessages(env, path) == before + [last];
    if FileService.GetFileMetadata(env.svc, env.host, path).Ok? {
      assert FileService.GetFileStream(env.svc, env.host, path).Err?;
      assert |before| == 1 && before[0].FileStart?;
    }
  }

  /** A listing of a directory that does not exist is a single error envelope. */
  lemma ListDirMissing(env: Environment, path: string)
    requires FileService.ResolveAndValidatePath(env.svc, env.host, path).Ok?
    requires FileService.ResolveAndValidatePath(env.svc, env.host, path).value !in env.host.directories
    ensures var full := FileService.ResolveAndValidatePath(env.svc, env.host, path).value;
      ListDirMessages(env, path) == [Reply(Envelope(JsonResponse.Failed, "List error: " + full))]
  {
    FileService.ListingOrder(env.svc, env.host, path, env.before);
  }
}
