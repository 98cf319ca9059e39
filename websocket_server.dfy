/**
 * The older command handler of the server (ServerApp/WebSocketTest/WebSocketServer.cs):
 * the same split as the router, four process verbs, PING and an echo of
 * anything else.  The process and application lists are JSON arrays built
 * by appending to a string builder; the replies are built by hand with the
 * message inserted as it is.  The operating system's process table is a
 * sequence of records, and the by-name lookup and Process.Start are inputs,
 * as are the messages of the exceptions the process calls may throw.
 */
module WebSocketServer {
  import opened Wrappers
  import opened Text
  import JsonResponse
  import Router

  /** What the server learns of a running process. */
  datatype ProcessRecord = ProcessRecord(id: int, name: string, title: string)

  /** The operating system as the handler sees it. */
  datatype System = System(
    processes: seq<ProcessRecord>,         // Process.GetProcesses()
    enumerateFault: Option<string>,        // the message of the exception Process.GetProcesses throws, if any
    readFault: Option<string>,             // ... that reading ProcessName or MainWindowTitle of a listed process throws
    countByName: string -> nat,            // Process.GetProcessesByName(name).Length
    lookupFault: string -> Option<string>, // ... that Process.GetProcessesByName(name) throws
    start: string -> Option<string>)       // ... that Process.Start throws

  /** The exception a walk over the process table meets, if any: the enumeration's, else a property read's. */
  function ListFault(sys: System): (f: Option<string>)
    ensures f.None? <==> sys.enumerateFault.None? && (sys.readFault.None? || sys.processes == [])
  {
    if sys.enumerateFault.Some? then sys.enumerateFault
    else if sys.processes != [] then sys.readFault
    else None
  }

  // ---------------------------------------------------------------- replies

  /** `{"trang_thai": "thanh_cong", "thong_bao": "`, the head JsonResponse.Success also writes. */
  const SuccessPrefix: string := JsonResponse.Head(JsonResponse.Succeeded)
  /** `{"trang_thai": "loi", "thong_bao": "`, the head JsonResponse.Error also writes. */
  const ErrorPrefix: string := JsonResponse.Head(JsonResponse.Failed)
  /** The closing quotation mark and brace. */
  const Suffix: string := JsonResponse.Tail

  /** JsonSuccess: the message is inserted without escaping. */
  function JsonSuccess(msg: string): (r: string)
    ensures |r| == |SuccessPrefix| + |msg| + |Suffix|
    ensures r[..|SuccessPrefix|] == SuccessPrefix && r[|SuccessPrefix|..|r| - |Suffix|] == msg && r[|r| - |Suffix|..] == Suffix
  {
    SuccessPrefix + msg + Suffix
  }

  /** JsonError: the message is inserted without escaping. */
  function JsonError(msg: string): (r: string)
    ensures |r| == |ErrorPrefix| + |msg| + |Suffix|
    ensures r[..|ErrorPrefix|] == ErrorPrefix && r[|ErrorPrefix|..|r| - |Suffix|] == msg && r[|r| - |Suffix|..] == Suffix
  {
    ErrorPrefix + msg + Suffix
  }

  /** For a message with no backslash, quote or line feed the hand-built replies are the escaping ones. */
  lemma PlainMessagesAgree(msg: string)
    requires forall i :: 0 <= i < |msg| ==> !JsonResponse.IsSpecial(msg[i])
    ensures JsonSuccess(msg) == JsonResponse.Success(msg)
    ensures JsonError(msg) == JsonResponse.Error(msg)
  {
    JsonResponse.EscapeSpecIdentity(msg);
  }

  /**
   * A message holding a quotation mark ends the JSON string early: the
   * hand-built error is no readable JSON reply, while the escaping
   * JsonResponse.Error of the same message is read back intact.
   */
  lemma QuoteBreaksJsonError()
    ensures JsonResponse.ParseReply(JsonError("\"")) == None
    ensures JsonResponse.ParseReply(JsonResponse.Error("\"")) == Some((JsonResponse.Failed, "\""))
  {
    JsonResponse.EnvelopesParse("\"");
    var t := JsonError("\"");
    var inner := t[|ErrorPrefix|..|t| - |Suffix|];
    assert inner == "\"";
    assert JsonResponse.Unescape(inner) == None;
    assert JsonResponse.ParseReplyAs(JsonResponse.Failed, t) == None;
    ErrorReadOnlyAsError("\"");
  }

  /** The heads of the three envelopes differ at their seventeenth character. */
  lemma HeadLetters()
    ensures |ErrorPrefix| > 16 && ErrorPrefix[16] == 'l'
    ensures |JsonResponse.Head(JsonResponse.Succeeded)| > 16 && JsonResponse.Head(JsonResponse.Succeeded)[16] == 't'
    ensures |JsonResponse.Head(JsonResponse.Informed)| > 16 && JsonResponse.Head(JsonResponse.Informed)[16] == 'i'
  {
  }

  /** A hand-built error is never read as a success or an information reply. */
  lemma ErrorReadOnlyAsError(msg: string)
    ensures JsonResponse.ParseReplyAs(JsonResponse.Succeeded, JsonError(msg)) == None
    ensures JsonResponse.ParseReplyAs(JsonResponse.Informed, JsonError(msg)) == None
  {
    HeadLetters();
    var t := JsonError(msg);
    assert t[16] == ErrorPrefix[16];
  }

  // ---------------------------------------------------------------- stopApp and startApp

  /** Drops one trailing ".exe" (compared case-sensitively). */
  function StripExe(name: string): (r: string)
    ensures EndsWith(name, ".exe") ==> r + ".exe" == name
    ensures !EndsWith(name, ".exe") ==> r == name
  {
    if EndsWith(name, ".exe") then name[..|name| - 4] else name
  }

  /** The suffix is removed exactly once: "a.exe.exe" loses only its last ".exe". */
  lemma StripExeOnce(base: string)
    ensures StripExe(base + ".exe") == base
  {
    var n := base + ".exe";
    assert n[|n| - 4..] == ".exe";
  }

  /** The effect a command has on the processes of the machine. */
  datatype Action = Killed(name: string, count: nat) | Started(path: string)

  /** A reply and the process action taken, if any. */
  datatype Handled = Handled(reply: string, action: Option<Action>)

  /** What HandleCommand's catch-all answers for an exception with this message; nothing was done. */
  function Caught(msg: string): (r: Handled)
    ensures r.action.None? && r.reply == JsonError("Lỗi Server: " + msg)
  {
    Handled(JsonError("Lỗi Server: " + msg), None)
  }

  /**
   * StopProcess: the lookup's exception reaches HandleCommand's catch-all;
   * otherwise the processes of that name are killed (kill failures
   * ignored), or none is found.
   */
  function StopProcess(sys: System, name: string): (r: Handled)
    ensures var n := StripExe(name);
      (sys.lookupFault(n).Some? ==> r == Caught(sys.lookupFault(n).value))
      && (sys.lookupFault(n).None? ==>
        (sys.countByName(n) == 0 <==> r == Handled(JsonError("Không tìm thấy ứng dụng: " + n), None))
        && (sys.countByName(n) > 0 ==>
              r.action == Some(Killed(n, sys.countByName(n)))
              && r.reply == JsonSuccess("Đã dừng " + NatToString(sys.countByName(n)) + " tiến trình tên '" + n + "'")))
  {
    var n := StripExe(name);
    if sys.lookupFault(n).Some? then Caught(sys.lookupFault(n).value)
    else
      var count := sys.countByName(n);
      if count == 0 then Handled(JsonError("Không tìm thấy ứng dụng: " + n), None)
      else Handled(JsonSuccess("Đã dừng " + NatToString(count) + " tiến trình tên '" + n + "'"), Some(Killed(n, count)))
  }

  /** StartProcess: Process.Start, then a success reply; its exception is caught by HandleCommand. */
  function StartProcess(sys: System, path: string): (r: Handled)
    ensures sys.start(path).None? ==> r == Handled(JsonSuccess("Đã khởi động: " + path), Some(Started(path)))
    ensures sys.start(path).Some? ==> r == Caught(sys.start(path).value)
  {
    match sys.start(path)
    case None => Handled(JsonSuccess("Đã khởi động: " + path), Some(Started(path)))
    case Some(m) => Caught(m)
  }

  // ---------------------------------------------------------------- process and application lists

  /** The entries joined with commas: none before the first, none after the last. */
  function JoinComma(entries: seq<string>): string {
    if |entries| == 0 then ""
    else if |entries| == 1 then entries[0]
    else JoinComma(entries[..|entries| - 1]) + "," + entries[|entries| - 1]
  }

  /** An entry that is a JSON object literal: it opens with a brace and closes with one. */
  predicate IsObject(e: string) {
    |e| >= 2 && e[0] == '{' && e[|e| - 1] == '}'
  }

  /** Appending one more entry adds a comma only after an existing one. */
  lemma JoinCommaSnoc(xs: seq<string>, e: string)
    ensures JoinComma(xs + [e]) == if xs == [] then e else JoinComma(xs) + "," + e
  {
    assert (xs + [e])[..|xs|] == xs;
  }

  /** Joined objects start with the first object's brace and end with the last one's. */
  lemma {:induction false} JoinCommaEnds(entries: seq<string>)
    requires |entries| > 0 && forall k :: 0 <= k < |entries| ==> IsObject(entries[k])
    ensures var j := JoinComma(entries);
      |j| >= 2 && j[0] == '{' && j[|j| - 1] == '}'
    decreases |entries|
  {
    if |entries| > 1 {
      JoinCommaEnds(entries[..|entries| - 1]);
    }
  }

  /** A JSON array of the entries. */
  function JsonArray(entries: seq<string>): string {
    "[" + JoinComma(entries) + "]"
  }

  /** No comma follows the opening bracket or precedes the closing one. */
  lemma NoStrayComma(entries: seq<string>)
    requires forall k :: 0 <= k < |entries| ==> IsObject(entries[k])
    ensures var a := JsonArray(entries);
      |a| >= 2 && a[0] == '[' && a[1] != ',' && a[|a| - 2] != ',' && a[|a| - 1] == ']'
  {
    if |entries| > 0 {
      JoinCommaEnds(entries);
    }
  }

  /** One entry of the process list. */
  function ProcessEntry(p: ProcessRecord): (r: string)
    ensures IsObject(r)
  {
    "{\"pid\": " + IntToString(p.id) + ", \"ten\": \"" + p.name + "\"}"
  }

  /** The entries of a whole process table, in its order. */
  function ProcessEntries(ps: seq<ProcessRecord>): (r: seq<string>)
    ensures |r| == |ps| && forall k :: 0 <= k < |ps| ==> r[k] == ProcessEntry(ps[k])
  {
    seq(|ps|, k requires 0 <= k < |ps| => ProcessEntry(ps[k]))
  }

  /**
   * Appending an entry to an array under construction: a comma first
   * unless it is the first entry.
   */
  lemma ArrayStep(es: seq<string>, e: string)
    ensures es == [] ==> "[" + JoinComma(es) + e == "[" + JoinComma(es + [e])
    ensures es != [] ==> "[" + JoinComma(es) + "," + e == "[" + JoinComma(es + [e])
  {
    JoinCommaSnoc(es, e);
    if es == [] {
    } else {
      var j := JoinComma(es);
      assert ("[" + j + ",") + e == "[" + (j + "," + e);
    }
  }

  /** The text the process-list builder holds after i entries: "[", the joined entries, a comma if more follow. */
  function ProcessListAfter(ps: seq<ProcessRecord>, i: nat): string
    requires i <= |ps|
  {
    if 0 < i < |ps| then "[" + JoinComma(ProcessEntries(ps[..i])) + "," else "[" + JoinComma(ProcessEntries(ps[..i]))
  }

  /** One iteration of the process-list loop: the entry, then a comma unless it is the last. */
  lemma ProcessListStep(ps: seq<ProcessRecord>, i: nat)
    requires i < |ps|
    ensures var after := ProcessListAfter(ps, i) + ProcessEntry(ps[i]);
      (i < |ps| - 1 ==> after + "," == ProcessListAfter(ps, i + 1))
      && (i == |ps| - 1 ==> after == ProcessListAfter(ps, i + 1))
  {
    var es := ProcessEntries(ps[..i]);
    var e := ProcessEntry(ps[i]);
    assert ProcessEntries(ps[..i + 1]) == es + [e];
    assert es == [] <==> i == 0;
    ArrayStep(es, e);
  }

  /** GetProcessList: every process, one entry each, a comma after all but the last. */
  method GetProcessList(sys: System) returns (r: Result<string, string>)
    ensures ListFault(sys).Some? ==> r == Err(ListFault(sys).value)
    ensures ListFault(sys).None? ==> r == Ok(JsonArray(ProcessEntries(sys.processes)))
  {
    if ListFault(sys).Some? {
      return Err(ListFault(sys).value);
    }
    var ps := sys.processes;
    var sb := "[";
    var i := 0;
    while i < |ps|
      invariant 0 <= i <= |ps|
      invariant sb == ProcessListAfter(ps, i)
    {
      ProcessListStep(ps, i);
      sb := sb + ProcessEntry(ps[i]);
      if i < |ps| - 1 {
        sb := sb + ",";
      }
      i := i + 1;
    }
    sb := sb + "]";
    assert ps[..|ps|] == ps;
    r := Ok(sb);
  }

  const ExplorerTitle: string := "Windows Explorer (Shell/Folder)"

  /** The title shown for a process: the explorer shell gets a fixed one when its own is empty. */
  function EffectiveTitle(p: ProcessRecord): (r: string)
    ensures p.title != "" ==> r == p.title
    ensures p.title == "" ==> (r != "" <==> ToLower(p.name) == "explorer")
  {
    if ToLower(p.name) == "explorer" && p.title == "" then ExplorerTitle else p.title
  }

  /** Backslashes doubled first, then quotation marks escaped; line feeds are left as they are. */
  function SafeTitle(t: string): string {
    ReplaceChar(ReplaceChar(t, '\\', "\\\\"), '"', "\\\"")
  }

  /** The text of one application entry: `{"pid": ID, "ten": "NAME", "tieu_de": "TITLE"}`. */
  function AppEntryText(id: int, name: string, safeTitle: string): (r: string)
    ensures IsObject(r)
  {
    "{\"pid\": " + IntToString(id) + ", \"ten\": \"" + name + "\", \"tieu_de\": \"" + safeTitle + "\"}"
  }

  /** One entry of the application list. */
  function AppEntry(p: ProcessRecord): string {
    AppEntryText(p.id, p.name, SafeTitle(EffectiveTitle(p)))
  }

  /** Whether a process appears in the application list: it has a title to show. */
  predicate IsShown(p: ProcessRecord) {
    EffectiveTitle(p) != ""
  }

  /** The processes that appear in the application list, in table order. */
  function Shown(ps: seq<ProcessRecord>): (r: seq<ProcessRecord>)
    ensures |r| <= |ps|
    ensures forall k :: 0 <= k < |r| ==> IsShown(r[k])
  {
    if ps == [] then []
    else
      var front, last := ps[..|ps| - 1], ps[|ps| - 1];
      Shown(front) + if IsShown(last) then [last] else []
  }

  /** A process is in the application list exactly when it is in the table and has a title to show. */
  lemma {:induction false} ShownIff(ps: seq<ProcessRecord>, p: ProcessRecord)
    ensures p in Shown(ps) <==> p in ps && IsShown(p)
    decreases |ps|
  {
    if ps != [] {
      var front, last := ps[..|ps| - 1], ps[|ps| - 1];
      ShownIff(front, p);
      assert ps == front + [last];
    }
  }

  /** One entry per shown process, in order. */
  function AppEntries(ps: seq<ProcessRecord>): (r: seq<string>)
    ensures |r| == |Shown(ps)|
    ensures forall k :: 0 <= k < |r| ==> r[k] == AppEntry(Shown(ps)[k])
  {
    var s := Shown(ps);
    seq(|s|, k requires 0 <= k < |s| => AppEntry(s[k]))
  }

  /** Both lists are well-formed JSON arrays: brackets at the ends and no comma next to either. */
  lemma ListsWellFormed(ps: seq<ProcessRecord>)
    ensures var a := JsonArray(ProcessEntries(ps));
      |a| >= 2 && a[0] == '[' && a[1] != ',' && a[|a| - 2] != ',' && a[|a| - 1] == ']'
    ensures var a := JsonArray(AppEntries(ps));
      |a| >= 2 && a[0] == '[' && a[1] != ',' && a[|a| - 2] != ',' && a[|a| - 1] == ']'
  {
    NoStrayComma(ProcessEntries(ps));
    AppEntriesAreObjects(ps);
    NoStrayComma(AppEntries(ps));
  }

  lemma AppEntriesAreObjects(ps: seq<ProcessRecord>)
    ensures forall k :: 0 <= k < |AppEntries(ps)| ==> IsObject(AppEntries(ps)[k])
  {
    var es, s := AppEntries(ps), Shown(ps);
    forall k | 0 <= k < |es|
      ensures IsObject(es[k])
    {
      var p := s[k];
      assert es[k] == AppEntryText(p.id, p.name, SafeTitle(EffectiveTitle(p)));
    }
  }

  /** Each process is listed on its own: the shown processes of a table are those of its parts, in order. */
  lemma {:induction false} ShownAppend(a: seq<ProcessRecord>, b: seq<ProcessRecord>)
    ensures Shown(a + b) == Shown(a) + Shown(b)
    decreases |b|
  {
    if b == [] {
      assert a + b == a;
    } else {
      var n := |b| - 1;
      var front, last := b[..n], b[n];
      var t := if IsShown(last) then [last] else [];
      assert b == front + [last];
      assert a + b == (a + front) + [last];
      ShownSnoc(a + front, last);
      ShownSnoc(front, last);
      ShownAppend(a, front);
      AppendAssoc3(Shown(a), Shown(front), t);
    }
  }

  /** The shown processes of a table with one more row. */
  lemma ShownSnoc(ps: seq<ProcessRecord>, p: ProcessRecord)
    ensures Shown(ps + [p]) == Shown(ps) + if IsShown(p) then [p] else []
  {
    assert (ps + [p])[..|ps|] == ps;
  }

  lemma AppendAssoc3<T>(x: seq<T>, y: seq<T>, t: seq<T>)
    ensures (x + y) + t == x + (y + t)
  {
  }

  /** The entries of a table are the entries of its parts, in order. */
  lemma AppEntriesAppend(a: seq<ProcessRecord>, b: seq<ProcessRecord>)
    ensures AppEntries(a + b) == AppEntries(a) + AppEntries(b)
  {
    ShownAppend(a, b);
    EntriesOfParts(Shown(a), Shown(b), AppEntries(a), AppEntries(b), AppEntries(a + b));
  }

  /** Entries taken one per process, over two runs of processes, are the entries of each run in turn. */
  lemma EntriesOfParts(sa: seq<ProcessRecord>, sb: seq<ProcessRecord>, l: seq<string>, r: seq<string>, e: seq<string>)
    requires |l| == |sa| && forall k :: 0 <= k < |sa| ==> l[k] == AppEntry(sa[k])
    requires |r| == |sb| && forall k :: 0 <= k < |sb| ==> r[k] == AppEntry(sb[k])
    requires |e| == |sa + sb| && forall k :: 0 <= k < |sa + sb| ==> e[k] == AppEntry((sa + sb)[k])
    ensures e == l + r
  {
    forall k | 0 <= k < |e|
      ensures e[k] == (l + r)[k]
    {
      if k >= |l| {
        assert (sa + sb)[k] == sb[k - |l|];
      }
    }
  }

  /** A process with an empty title is listed only if it is the explorer shell, and then under the fixed title. */
  lemma ListedIff(p: ProcessRecord)
    ensures AppEntries([p]) == (if p.title != "" || ToLower(p.name) == "explorer" then [AppEntry(p)] else [])
    ensures p.title == "" && ToLower(p.name) == "explorer" ==> EffectiveTitle(p) == ExplorerTitle
  {
    AppEntriesOne(p);
  }

  /** The title of a process, the explorer shell's empty one replaced by the fixed title. */
  method ShownTitle(p: ProcessRecord) returns (title: string)
    ensures title == EffectiveTitle(p)
  {
    title := p.title;
    if ToLower(p.name) == "explorer" {
      if title == "" {
        title := ExplorerTitle;
      }
    }
  }

  /** One iteration of the application-list loop: a shown process adds its entry, any other adds nothing. */
  lemma AppListStep(ps: seq<ProcessRecord>, i: nat, es: seq<string>)
    requires i < |ps| && es == AppEntries(ps[..i])
    ensures !IsShown(ps[i]) ==> AppEntries(ps[..i + 1]) == es
    ensures IsShown(ps[i]) ==> AppEntries(ps[..i + 1]) == es + [AppEntry(ps[i])]
  {
    assert ps[..i + 1] == ps[..i] + [ps[i]];
    AppEntriesAppend(ps[..i], [ps[i]]);
    AppEntriesOne(ps[i]);
  }

  /** A one-row table lists its process exactly when it has a title to show. */
  lemma AppEntriesOne(p: ProcessRecord)
    ensures AppEntries([p]) == if IsShown(p) then [AppEntry(p)] else []
  {
    assert [p][..0] == [];
  }

  /** The text and flag the application-list builder holds after i rows: the entries so far, and whether there are none. */
  predicate AppListAfter(ps: seq<ProcessRecord>, i: nat, isFirst: bool, sb: string)
    requires i <= |ps|
  {
    (isFirst <==> AppEntries(ps[..i]) == []) && sb == "[" + JoinComma(AppEntries(ps[..i]))
  }

  /** One turn of the application-list loop, from the text and flag before it to those after it. */
  lemma AppListTurn(ps: seq<ProcessRecord>, i: nat, isFirst: bool, sb: string, i': nat, isFirst': bool, sb': string)
    requires i < |ps| && AppListAfter(ps, i, isFirst, sb) && i' == i + 1
    requires IsShown(ps[i]) && isFirst ==> sb' == sb + AppEntry(ps[i]) && !isFirst'
    requires IsShown(ps[i]) && !isFirst ==> sb' == sb + "," + AppEntry(ps[i]) && !isFirst'
    requires !IsShown(ps[i]) ==> sb' == sb && isFirst' == isFirst
    ensures AppListAfter(ps, i', isFirst', sb')
  {
    var es := AppEntries(ps[..i]);
    AppListStep(ps, i, es);
    if IsShown(ps[i]) {
      ArrayStep(es, AppEntry(ps[i]));
    }
  }

  /** GetApplicationList: the titled processes, with an isFirst flag deciding each comma. */
  method GetApplicationList(sys: System) returns (r: Result<string, string>)
    ensures ListFault(sys).Some? ==> r == Err(ListFault(sys).value)
    ensures ListFault(sys).None? ==> r == Ok(JsonArray(AppEntries(sys.processes)))
  {
    if ListFault(sys).Some? {
      return Err(ListFault(sys).value);
    }
    var ps := sys.processes;
    var sb := "[";
    var isFirst := true;
    var i := 0;
    while i < |ps|
      invariant 0 <= i <= |ps|
      invariant AppListAfter(ps, i, isFirst, sb)
    {
      var p := ps[i];
      ghost var i0, sb0, isFirst0 := i, sb, isFirst;
      var title := ShownTitle(p);
      if title != "" {
        var entry := AppEntryText(p.id, p.name, SafeTitle(title));
        if !isFirst {
          sb := sb + ",";
        }
        sb := sb + entry;
        isFirst := false;
      }
      i := i + 1;
      AppListTurn(ps, i0, isFirst0, sb0, i, isFirst, sb);
    }
    sb := sb + "]";
    assert ps[..|ps|] == ps;
    r := Ok(sb);
  }

  // ---------------------------------------------------------------- title escaping

  /** The escape of one title character. */
  function TitleEscapeChar(c: char): string {
    if c == '\\' then "\\\\" else if c == '"' then "\\\"" else [c]
  }

  /** Character-by-character title escaping, the reference for SafeTitle. */
  function TitleEscapeSpec(s: string): string {
    if s == [] then [] else TitleEscapeChar(s[0]) + TitleEscapeSpec(s[1..])
  }

  lemma SafeTitleChar(c: char)
    ensures SafeTitle([c]) == TitleEscapeChar(c)
  {
    assert [c][1..] == [];
    if c == '\\' {
      assert ReplaceChar([c], '\\', "\\\\") == "\\\\";
      assert ReplaceChar("\\\\", '"', "\\\"") == "\\\\";
    } else if c == '"' {
      assert ReplaceChar([c], '"', "\\\"") == "\\\"";
    }
  }

  lemma SafeTitleAppend(s: string, u: string)
    ensures SafeTitle(s + u) == SafeTitle(s) + SafeTitle(u)
  {
    ReplaceCharAppend(s, u, '\\', "\\\\");
    ReplaceCharAppend(ReplaceChar(s, '\\', "\\\\"), ReplaceChar(u, '\\', "\\\\"), '"', "\\\"");
  }

  /** The two chained replacements escape each character on its own. */
  lemma {:induction false} SafeTitleIsSpec(s: string)
    ensures SafeTitle(s) == TitleEscapeSpec(s)
    decreases |s|
  {
    if s != [] {
      assert s == [s[0]] + s[1..];
      SafeTitleAppend([s[0]], s[1..]);
      SafeTitleChar(s[0]);
      SafeTitleIsSpec(s[1..]);
    }
  }

  /**
   * Because backslashes are doubled before quotes are escaped, the JSON
   * reading recovers every title exactly when it has no control character;
   * a line feed or any other control character is left raw, and the reading
   * refuses it.
   */
  lemma {:induction false} UnescapeTitleSpec(s: string)
    ensures JsonResponse.Unescape(TitleEscapeSpec(s)) == if JsonResponse.NoControl(s) then Some(s) else None
    decreases |s|
  {
    if s != [] {
      var t := TitleEscapeSpec(s);
      UnescapeTitleSpec(s[1..]);
      JsonResponse.PrintableCons(s);
      if s[0] == '\\' || s[0] == '"' {
        assert t[2..] == TitleEscapeSpec(s[1..]);
      } else if !JsonResponse.IsControl(s[0]) {
        assert t[1..] == TitleEscapeSpec(s[1..]);
      }
      assert s == [s[0]] + s[1..];
    }
  }

  lemma UnescapeSafeTitle(s: string)
    ensures JsonResponse.Unescape(SafeTitle(s)) == if JsonResponse.NoControl(s) then Some(s) else None
  {
    SafeTitleIsSpec(s);
    UnescapeTitleSpec(s);
  }

  /** On titles without a line feed the title escaping is JsonResponse's escaping. */
  lemma {:induction false} SafeTitleIsEscape(s: string)
    requires '\n' !in s
    ensures SafeTitle(s) == JsonResponse.EscapeSpec(s)
    decreases |s|
  {
    SafeTitleIsSpec(s);
    if s != [] {
      assert '\n' !in s[1..] by { assert forall i :: 0 <= i < |s| - 1 ==> s[1..][i] == s[i + 1]; }
      SafeTitleIsEscape(s[1..]);
      SafeTitleIsSpec(s[1..]);
      JsonResponse.EscapeSpecCons(s);
    }
  }

  // ---------------------------------------------------------------- HandleCommand

  /** A list verb's reply: the array the loop builds, or the catch-all's error when a process call throws. */
  function ListReply(sys: System, entries: seq<string>): (r: Handled)
    ensures r.action.None?
    ensures ListFault(sys).Some? ==> r == Caught(ListFault(sys).value)
    ensures ListFault(sys).None? ==> r.reply == JsonArray(entries)
  {
    if ListFault(sys).Some? then Caught(ListFault(sys).value) else Handled(JsonArray(entries), None)
  }

  /**
   * HandleCommand: the list verbs answered by the arrays their loops build,
   * the process verbs by StopProcess and StartProcess once an argument is
   * given, and every exception by the catch-all's error reply.
   */
  function HandleCommand(sys: System, command: string): (r: Handled)
    ensures var (cmd, arg) := Router.SplitCommand(command);
      (cmd == "listProcesses" ==>
            r.action.None?
            && r.reply == (if ListFault(sys).Some? then JsonError("Lỗi Server: " + ListFault(sys).value)
                           else JsonArray(ProcessEntries(sys.processes))))
      && (cmd == "listApps" ==>
            r.action.None?
            && r.reply == (if ListFault(sys).Some? then JsonError("Lỗi Server: " + ListFault(sys).value)
                           else JsonArray(AppEntries(sys.processes))))
      && (cmd == "stopApp" && arg != "" ==> r == StopProcess(sys, arg))
      && (cmd == "startApp" && arg != "" ==> r == StartProcess(sys, arg))
      && (cmd == "PING" ==> r == Handled("PONG", None))
      && (!(cmd in {"listProcesses", "listApps", "stopApp", "startApp", "PING"}) ==> r == Handled(command, None))
      && (cmd == "stopApp" && arg == "" ==> r == Handled(JsonError("Chưa nhập tên App"), None))
      && (cmd == "startApp" && arg == "" ==> r == Handled(JsonError("Chưa nhập đường dẫn/tên App"), None))
      && (r.action.Some? ==> cmd in {"stopApp", "startApp"} && arg != "")
  {
    var (cmd, arg) := Router.SplitCommand(command);
    if cmd == "listProcesses" then ListReply(sys, ProcessEntries(sys.processes))
    else if cmd == "listApps" then ListReply(sys, AppEntries(sys.processes))
    else if cmd == "stopApp" then
      if arg == "" then Handled(JsonError("Chưa nhập tên App"), None) else StopProcess(sys, arg)
    else if cmd == "startApp" then
      if arg == "" then Handled(JsonError("Chưa nhập đường dẫn/tên App"), None) else StartProcess(sys, arg)
    else if cmd == "PING" then Handled("PONG", None)
    else Handled(command, None)
  }
}
