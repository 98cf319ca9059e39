/**
 * The server's hand-built JSON replies (ServerApp/WebSocketTest/Models/JsonResponse.cs):
 * a status word and a message, the message escaped by three chained
 * String.Replace calls.  The escaping is the subset of the string escapes
 * of section 7 of RFC 8259 that covers the reverse solidus, the quotation
 * mark and the line feed; every other character is copied as it is.
 */
module JsonResponse {
  import opened Wrappers
  import opened Text

  /** A possibly-null .NET string: null maps to the empty string (the `s ?? ""` of the source). */
  function OrEmpty(s: Option<string>): string {
    if s.Some? then s.value else ""
  }

  predicate IsSpecial(c: char) { c == '\\' || c == '"' || c == '\n' }

  /** The escape of one character, the reference definition for the chained replacements. */
  function EscapeChar(c: char): (r: string)
    ensures 1 <= |r| <= 2
    ensures |r| == 2 <==> IsSpecial(c)
    ensures '\n' !in r
  {
    if c == '\\' then "\\\\"
    else if c == '"' then "\\\""
    else if c == '\n' then "\\n"
    else [c]
  }

  /** Character-by-character escaping. */
  function EscapeSpec(s: string): string {
    if s == [] then [] else EscapeChar(s[0]) + EscapeSpec(s[1..])
  }

  /** The number of characters Escape lengthens by one. */
  function CountSpecial(s: string): nat {
    if s == [] then 0 else (if IsSpecial(s[0]) then 1 else 0) + CountSpecial(s[1..])
  }

  /** The three replacements in the order of the source: backslash first, then quote, then line feed. */
  function ReplaceChain(s: string): string {
    ReplaceChar(ReplaceChar(ReplaceChar(s, '\\', "\\\\"), '"', "\\\""), '\n', "\\n")
  }

  lemma ReplaceChainChar(c: char)
    ensures ReplaceChain([c]) == EscapeChar(c)
  {
    assert [c][1..] == [];
    if c == '\\' {
      assert ReplaceChar([c], '\\', "\\\\") == "\\\\";
      assert ReplaceChar("\\\\", '"', "\\\"") == "\\\\";
      assert ReplaceChar("\\\\", '\n', "\\n") == "\\\\";
    } else if c == '"' {
      assert ReplaceChar([c], '"', "\\\"") == "\\\"";
      assert ReplaceChar("\\\"", '\n', "\\n") == "\\\"";
    } else if c == '\n' {
      assert ReplaceChar([c], '\n', "\\n") == "\\n";
    }
  }

  lemma ReplaceChainAppend(s: string, u: string)
    ensures ReplaceChain(s + u) == ReplaceChain(s) + ReplaceChain(u)
  {
    var a := ReplaceChar(s, '\\', "\\\\");
    var b := ReplaceChar(u, '\\', "\\\\");
    ReplaceCharAppend(s, u, '\\', "\\\\");
    var a2 := ReplaceChar(a, '"', "\\\"");
    var b2 := ReplaceChar(b, '"', "\\\"");
    ReplaceCharAppend(a, b, '"', "\\\"");
    ReplaceCharAppend(a2, b2, '\n', "\\n");
  }

  /** The chained replacements agree with character-by-character escaping. */
  lemma {:induction false} ReplaceChainIsEscapeSpec(s: string)
    ensures ReplaceChain(s) == EscapeSpec(s)
    decreases |s|
  {
    if s == [] {
    } else {
      assert s == [s[0]] + s[1..];
      ReplaceChainAppend([s[0]], s[1..]);
      ReplaceChainChar(s[0]);
      ReplaceChainIsEscapeSpec(s[1..]);
    }
  }

  /** Escape of the source: `(s ?? "")` followed by the three replacements. */
  function Escape(s: Option<string>): (r: string)
    ensures s.None? ==> r == ""
    ensures r == EscapeSpec(OrEmpty(s))
  {
    ReplaceChainIsEscapeSpec(OrEmpty(s));
    ReplaceChain(OrEmpty(s))
  }

  /** The characters section 7 of RFC 8259 forbids raw inside a string: U+0000 to U+001F. */
  predicate IsControl(c: char) { c < ' ' }

  /**
   * Text the escaping of the source turns into a readable JSON string: its
   * only control character, if any, is the line feed, which it escapes.
   */
  predicate Printable(s: string) {
    forall i :: 0 <= i < |s| ==> !IsControl(s[i]) || s[i] == '\n'
  }

  /** Text with no control character at all. */
  predicate NoControl(s: string) {
    forall i :: 0 <= i < |s| ==> !IsControl(s[i])
  }

  lemma PrintableCons(s: string)
    requires s != []
    ensures Printable(s) <==> (!IsControl(s[0]) || s[0] == '\n') && Printable(s[1..])
    ensures NoControl(s) <==> !IsControl(s[0]) && NoControl(s[1..])
  {
    assert forall i :: 0 <= i < |s| - 1 ==> s[1..][i] == s[i + 1];
  }

  /** The value of a lower-case hexadecimal digit. */
  function HexValue(c: char): (r: Option<nat>)
    ensures r.Some? ==> r.value < 16
  {
    if '0' <= c <= '9' then Some(c as int - '0' as int)
    else if 'a' <= c <= 'f' then Some(c as int - 'a' as int + 10)
    else None
  }

  /** The lower-case hexadecimal digit of a value below 16. */
  function HexDigit(d: nat): (c: char)
    requires d < 16
    ensures HexValue(c) == Some(d)
  {
    if d < 10 then ('0' as int + d) as char else ('a' as int + d - 10) as char
  }

  lemma HexDigitOfValue(c: char)
    requires HexValue(c).Some?
    ensures HexDigit(HexValue(c).value) == c
  {
  }

  /** `\u00hh`, the escape of a control character. */
  function UnicodeEscape(c: char): (r: string)
    requires IsControl(c)
    ensures |r| == 6 && r[..4] == "\\u00"
  {
    "\\u00" + [HexDigit(c as int / 16), HexDigit(c as int % 16)]
  }

  /** The character a `\u00hh` escape stands for, when it is a control character other than the line feed. */
  function UnicodeEscaped(h1: char, h0: char): (r: Option<char>)
    ensures r.Some? ==> IsControl(r.value) && r.value != '\n'
  {
    if HexValue(h1).Some? && HexValue(h0).Some? then
      var v := 16 * HexValue(h1).value + HexValue(h0).value;
      if v < 32 && v != 10 then Some(v as char) else None
    else None
  }

  /**
   * The JSON reading of the inside of a string: a subset of the string
   * grammar of section 7 of RFC 8259, read as a JSON parser reads it.  A
   * raw quote would end the string and a raw control character is not
   * allowed, so both are refused; the escapes accepted are `\\`, `\"`,
   * `\n` and `\u00hh` for the other control characters, which are the
   * forms the escapers here write.
   */
  function Unescape(t: string): (r: Option<string>)
    decreases |t|
  {
    if t == [] then Some([])
    else if t[0] == '"' || IsControl(t[0]) then None
    else if t[0] != '\\' then
      (var rest := Unescape(t[1..]); if rest.Some? then Some([t[0]] + rest.value) else None)
    else if |t| < 2 then None
    else if t[1] == 'u' then
      if |t| < 6 || t[2] != '0' || t[3] != '0' then None
      else
        var c := UnicodeEscaped(t[4], t[5]);
        var rest := Unescape(t[6..]);
        if c.Some? && rest.Some? then Some([c.value] + rest.value) else None
    else
      var c := if t[1] == '\\' then Some('\\') else if t[1] == '"' then Some('"') else if t[1] == 'n' then Some('\n') else None;
      var rest := Unescape(t[2..]);
      if c.Some? && rest.Some? then Some([c.value] + rest.value) else None
  }

  lemma EscapeSpecCons(s: string)
    requires s != []
    ensures EscapeSpec(s) == EscapeChar(s[0]) + EscapeSpec(s[1..])
  {
  }

  /**
   * Escaping is read back exactly when the text has no control character
   * besides the line feed: a carriage return or a tab is copied raw, and a
   * JSON reader refuses it.
   */
  lemma {:induction false} UnescapeEscapeSpec(s: string)
    ensures Unescape(EscapeSpec(s)) == if Printable(s) then Some(s) else None
    decreases |s|
  {
    if s != [] {
      var t := EscapeSpec(s);
      EscapeSpecCons(s);
      PrintableCons(s);
      UnescapeEscapeSpec(s[1..]);
      if IsSpecial(s[0]) {
        assert t[2..] == EscapeSpec(s[1..]);
      } else if !IsControl(s[0]) {
        assert t[1..] == EscapeSpec(s[1..]);
      }
      assert s == [s[0]] + s[1..];
    }
  }

  /** Because the backslash is doubled first, unescaping recovers every text without a raw control character but the line feed. */
  lemma UnescapeEscape(s: Option<string>)
    ensures Unescape(Escape(s)) == if Printable(OrEmpty(s)) then Some(OrEmpty(s)) else None
  {
    UnescapeEscapeSpec(OrEmpty(s));
  }

  /** Conversely, every text Unescape accepts and reads as such a text is the escape of what it reads. */
  lemma {:induction false} EscapeUnescape(t: string)
    requires Unescape(t).Some? && Printable(Unescape(t).value)
    ensures Escape(Unescape(t)) == t
    decreases |t|
  {
    var s := Unescape(t).value;
    if t != [] {
      PrintableCons(s);
      EscapeSpecCons(s);
      if t[0] != '\\' {
        EscapeUnescape(t[1..]);
        assert s[1..] == Unescape(t[1..]).value;
        assert t == [t[0]] + t[1..];
      } else if t[1] != 'u' {
        EscapeUnescape(t[2..]);
        assert s[1..] == Unescape(t[2..]).value;
        assert t == t[..2] + t[2..];
      }
    }
  }

  lemma {:induction false} NoNewlineInEscapeSpec(s: string)
    ensures '\n' !in EscapeSpec(s)
    decreases |s|
  {
    if s != [] {
      EscapeSpecCons(s);
      NoNewlineInEscapeSpec(s[1..]);
    }
  }

  /** The escaped text never contains a raw line feed. */
  lemma NoNewlineInEscape(s: Option<string>)
    ensures '\n' !in Escape(s)
  {
    NoNewlineInEscapeSpec(OrEmpty(s));
  }

  /** Text without a backslash, quote or line feed is copied unchanged, carriage returns and tabs included. */
  lemma {:induction false} EscapeSpecIdentity(s: string)
    requires forall i :: 0 <= i < |s| ==> !IsSpecial(s[i])
    ensures EscapeSpec(s) == s
    decreases |s|
  {
    if s != [] {
      EscapeSpecCons(s);
      EscapeSpecIdentity(s[1..]);
      assert s == [s[0]] + s[1..];
    }
  }

  /** Every special character adds exactly one character of output. */
  lemma {:induction false} EscapeSpecLength(s: string)
    ensures |EscapeSpec(s)| == |s| + CountSpecial(s)
    decreases |s|
  {
    if s != [] {
      EscapeSpecCons(s);
      EscapeSpecLength(s[1..]);
    }
  }

  // ---------------------------------------------------------------- replies

  /** The three status words of the reply envelope. */
  datatype Status = Succeeded | Failed | Informed

  function StatusWord(st: Status): string {
    match st
    case Succeeded => "thanh_cong"
    case Failed => "loi"
    case Informed => "info"
  }

  /** Everything a reply holds before the escaped message. */
  function Head(st: Status): string {
    "{\"trang_thai\": \"" + StatusWord(st) + "\", \"thong_bao\": \""
  }

  const Tail: string := "\"}"

  function Reply(st: Status, msg: string): string {
    Head(st) + Escape(Some(msg)) + Tail
  }

  /** JsonResponse.Success. */
  function Success(msg: string): string {
    Reply(Succeeded, msg)
  }

  /** JsonResponse.Error. */
  function Error(msg: string): string {
    Reply(Failed, msg)
  }

  /** JsonResponse.Info. */
  function Info(msg: string): string {
    Reply(Informed, msg)
  }

  /**
   * Each envelope is read back with its own status word and its message
   * intact exactly when the message has no control character besides the
   * line feed; otherwise the reply is not readable JSON.
   */
  lemma EnvelopesParse(msg: string)
    ensures ParseReply(Success(msg)) == if Printable(msg) then Some((Succeeded, msg)) else None
    ensures ParseReply(Error(msg)) == if Printable(msg) then Some((Failed, msg)) else None
    ensures ParseReply(Info(msg)) == if Printable(msg) then Some((Informed, msg)) else None
  {
    ParseReplyOf(Succeeded, msg);
    ParseReplyOf(Failed, msg);
    ParseReplyOf(Informed, msg);
  }

  /** The reading of a reply with this status: the head and tail matched, the message between them unescaped. */
  function ParseReplyAs(st: Status, t: string): Option<(Status, string)> {
    var h := Head(st);
    if |t| >= |h| + |Tail| && t[..|h|] == h && t[|t| - |Tail|..] == Tail then
      var m := Unescape(t[|h|..|t| - |Tail|]);
      if m.Some? then Some((st, m.value)) else None
    else None
  }

  function ParseReply(t: string): Option<(Status, string)> {
    var a := ParseReplyAs(Succeeded, t);
    if a.Some? then a
    else
      var b := ParseReplyAs(Failed, t);
      if b.Some? then b else ParseReplyAs(Informed, t)
  }

  /** A head, an escaped text and the tail read as that status and whatever the text reads as. */
  lemma ReadsAsOwn(st: Status, e: string)
    ensures ParseReplyAs(st, Head(st) + e + Tail) == if Unescape(e).Some? then Some((st, Unescape(e).value)) else None
  {
    var h := Head(st);
    var t := h + e + Tail;
    assert t[..|h|] == h;
    assert t[|t| - |Tail|..] == Tail;
    assert t[|h|..|t| - |Tail|] == e;
  }

  /** A text that starts with one status's head is never read as another status. */
  lemma OtherHeadsMiss(st: Status, other: Status, t: string)
    requires |t| >= |Head(st)| && t[..|Head(st)|] == Head(st)
    requires other != st
    ensures ParseReplyAs(other, t).None?
  {
    // The three heads differ at the first letter of the status word.
    assert t[16] == Head(st)[16] == StatusWord(st)[0];
    assert Head(other)[16] == StatusWord(other)[0];
  }

  /** Such a text is read as its own status only, by the reader that tries each status in turn. */
  lemma ReadsOwnStatusOnly(st: Status, t: string)
    requires |t| >= |Head(st)| && t[..|Head(st)|] == Head(st)
    ensures ParseReply(t) == ParseReplyAs(st, t)
  {
    match st
    case Succeeded =>
      OtherHeadsMiss(st, Failed, t);
      OtherHeadsMiss(st, Informed, t);
    case Failed =>
      OtherHeadsMiss(st, Succeeded, t);
      OtherHeadsMiss(st, Informed, t);
    case Informed =>
      OtherHeadsMiss(st, Succeeded, t);
      OtherHeadsMiss(st, Failed, t);
  }

  lemma ReadsAs(st: Status, e: string)
    ensures ParseReply(Head(st) + e + Tail) == if Unescape(e).Some? then Some((st, Unescape(e).value)) else None
  {
    var t := Head(st) + e + Tail;
    ReadsAsOwn(st, e);
    assert t[..|Head(st)|] == Head(st);
    ReadsOwnStatusOnly(st, t);
  }

  lemma ParseReplyAsOf(st: Status, msg: string)
    ensures ParseReplyAs(st, Reply(st, msg)) == if Printable(msg) then Some((st, msg)) else None
  {
    ReadsAsOwn(st, Escape(Some(msg)));
    UnescapeEscape(Some(msg));
  }

  /** A reply is never read as another status, and is read as its own exactly when its message is printable. */
  lemma ParseReplyOf(st: Status, msg: string)
    ensures ParseReply(Reply(st, msg)) == if Printable(msg) then Some((st, msg)) else None
  {
    ReadsAs(st, Escape(Some(msg)));
    UnescapeEscape(Some(msg));
  }

  // ---------------------------------------------------------------- every control character escaped

  /** The escape section 7 of RFC 8259 asks for: the source's three, and `\u00hh` for every other control character. */
  function EscapeCharStrict(c: char): (r: string)
    ensures NoControl(r)
  {
    if IsControl(c) && c != '\n' then UnicodeEscape(c) else EscapeChar(c)
  }

  function EscapeStrict(s: string): string {
    if s == [] then [] else EscapeCharStrict(s[0]) + EscapeStrict(s[1..])
  }

  lemma DivMod16(h1: nat, h0: nat)
    requires h0 < 16
    ensures (16 * h1 + h0) / 16 == h1 && (16 * h1 + h0) % 16 == h0
  {
  }

  /** A control character's `\u00hh` escape reads back as that character. */
  lemma UnicodeEscapeRead(c: char)
    requires IsControl(c) && c != '\n'
    ensures UnicodeEscaped(UnicodeEscape(c)[4], UnicodeEscape(c)[5]) == Some(c)
  {
    var v := c as int;
    DivMod16(v / 16, v % 16);
  }

  /** The corrected escaping is read back exactly, for every text. */
  lemma {:induction false} UnescapeEscapeStrict(s: string)
    ensures Unescape(EscapeStrict(s)) == Some(s)
    decreases |s|
  {
    if s != [] {
      var t := EscapeStrict(s);
      UnescapeEscapeStrict(s[1..]);
      if IsControl(s[0]) && s[0] != '\n' {
        UnicodeEscapeRead(s[0]);
        assert t[..6] == UnicodeEscape(s[0]);
        assert t[6..] == EscapeStrict(s[1..]);
      } else if IsSpecial(s[0]) {
        assert t[2..] == EscapeStrict(s[1..]);
      } else {
        assert t[1..] == EscapeStrict(s[1..]);
      }
      assert s == [s[0]] + s[1..];
    }
  }

  /** Conversely, every text Unescape accepts is the corrected escape of what it reads. */
  lemma {:induction false} EscapeStrictUnescape(t: string)
    requires Unescape(t).Some?
    ensures EscapeStrict(Unescape(t).value) == t
    decreases |t|
  {
    var s := Unescape(t).value;
    if t != [] {
      if t[0] != '\\' {
        EscapeStrictUnescape(t[1..]);
        assert s[1..] == Unescape(t[1..]).value;
        assert t == [t[0]] + t[1..];
      } else if t[1] != 'u' {
        EscapeStrictUnescape(t[2..]);
        assert s[1..] == Unescape(t[2..]).value;
        assert t == t[..2] + t[2..];
      } else {
        EscapeStrictUnescape(t[6..]);
        var h1, h0 := HexValue(t[4]).value, HexValue(t[5]).value;
        DivMod16(h1, h0);
        HexDigitOfValue(t[4]);
        HexDigitOfValue(t[5]);
        assert s[1..] == Unescape(t[6..]).value;
        assert EscapeCharStrict(s[0]) == t[..6];
        assert t == t[..6] + t[6..];
      }
    }
  }

  /** The corrected envelope: the message escaped as section 7 of RFC 8259 asks. */
  function ReplyStrict(st: Status, msg: string): string {
    Head(st) + EscapeStrict(msg) + Tail
  }

  /** Every corrected envelope is read back with its status and message, whatever the message holds. */
  lemma StrictEnvelopesParse(st: Status, msg: string)
    ensures ParseReply(ReplyStrict(st, msg)) == Some((st, msg))
  {
    ReadsAs(st, EscapeStrict(msg));
    UnescapeEscapeStrict(msg);
  }

  /**
   * A message with a carriage return, such as a two-line exception text,
   * gives an error envelope no JSON reader accepts; the corrected envelope
   * of the same message is read back.
   */
  lemma ControlBreaksReply()
    ensures ParseReply(Error("a\r\nb")) == None
    ensures ParseReply(ReplyStrict(Failed, "a\r\nb")) == Some((Failed, "a\r\nb"))
  {
    var m := "a\r\nb";
    assert IsControl(m[1]) && m[1] != '\n';
    ParseReplyOf(Failed, m);
    StrictEnvelopesParse(Failed, m);
  }
}
