/**
 * The browser side of the file manager
 * (ClientApp/static/js/features/filemanager.js): directory navigation and
 * the reassembly of downloads.  A download is registered under its
 * normalised path; file_start fills in its size and type, file_chunk stores
 * the base64 text of each chunk at its index, and file_end checks for gaps,
 * validates the concatenated text, decodes it in 1 MiB windows and hands
 * the bytes to the browser.  Messages sent to the server are recorded in
 * `outbox`; the log and the DOM are left out.
 */
module FileManagerClient {
  import opened Wrappers
  import opened Text
  import opened Base64
  import opened Protocol
  import Ordering
  import FileService

  // ---------------------------------------------------------------- paths

  /** path.replace(/\//g, '\\'): every slash becomes a backslash. */
  function Backslashed(s: string): (r: string)
    ensures |r| == |s|
    ensures forall i :: 0 <= i < |s| ==> r[i] == (if s[i] == '/' then '\\' else s[i])
  {
    seq(|s|, i requires 0 <= i < |s| => if s[i] == '/' then '\\' else s[i])
  }

  /** No two backslashes in a row. */
  predicate NoDoubleBackslash(s: string) {
    forall i :: 0 <= i < |s| - 1 ==> !(s[i] == '\\' && s[i + 1] == '\\')
  }

  /** .replace(/\\+/g, '\\'): every run of backslashes becomes one. */
  function Collapse(s: string): (r: string)
    ensures NoDoubleBackslash(r)
    ensures |r| <= |s|
    ensures |s| > 0 ==> |r| > 0 && r[0] == s[0]
    ensures forall i :: 0 <= i < |r| ==> r[i] in s
  {
    if |s| <= 1 then s
    else if s[0] == '\\' && s[1] == '\\' then Collapse(s[1..])
    else
      var rest := Collapse(s[1..]);
      assert forall i :: 0 <= i < |rest| ==> rest[i] in s;
      [s[0]] + rest
  }

  /** A text with no double backslash is left as it is. */
  lemma {:induction false} CollapseKeeps(s: string)
    requires NoDoubleBackslash(s)
    ensures Collapse(s) == s
    decreases |s|
  {
    if |s| > 1 {
      CollapseKeeps(s[1..]);
      assert s == [s[0]] + s[1..];
    }
  }

  /** normalizePath: '' for an empty path, else slashes to backslashes, runs collapsed, upper case. */
  function NormalizePath(path: string): (key: string)
    ensures path == "" ==> key == ""
    ensures forall i :: 0 <= i < |key| ==> key[i] != '/' && !IsLower(key[i])
    ensures NoDoubleBackslash(key)
  {
    if path == "" then ""
    else
      var c := Collapse(Backslashed(path));
      var key := ToUpper(c);
      assert forall i :: 0 <= i < |key| ==> (key[i] == '\\' <==> c[i] == '\\');
      key
  }

  /** Normalising twice gives the same key as normalising once. */
  lemma NormalizeIdempotent(path: string)
    ensures NormalizePath(NormalizePath(path)) == NormalizePath(path)
  {
    var key := NormalizePath(path);
    if key != "" {
      assert Backslashed(key) == key;
      CollapseKeeps(key);
      assert ToUpper(key) == key;
    }
  }

  /** Paths that differ only in slash direction, doubled separators or letter case share one key. */
  lemma NormalizeForgetsSpelling(path: string)
    ensures NormalizePath(ToUpper(path)) == NormalizePath(path)
    ensures NormalizePath(Backslashed(path)) == NormalizePath(path)
  {
    if path != "" {
      var u := ToUpper(path);
      assert Backslashed(u) == ToUpper(Backslashed(path));
      CollapseUpper(Backslashed(path));
      assert ToUpper(ToUpper(Collapse(Backslashed(path)))) == ToUpper(Collapse(Backslashed(path)));
      assert Backslashed(Backslashed(path)) == Backslashed(path);
    }
  }

  /** Upper-casing leaves backslashes alone and makes none. */
  lemma UpperBackslash(c: char)
    ensures UpperChar(c) == '\\' <==> c == '\\'
  {
  }

  /** Upper-casing goes character by character. */
  lemma UpperCons(c: char, rest: string)
    ensures ToUpper([c] + rest) == [UpperChar(c)] + ToUpper(rest)
  {
    var l, r := ToUpper([c] + rest), [UpperChar(c)] + ToUpper(rest);
    forall i | 0 <= i < |l| ensures l[i] == r[i] {
      if i > 0 {
        assert ([c] + rest)[i] == rest[i - 1];
      }
    }
  }

  /** Upper-casing and collapsing backslash runs can be done in either order. */
  lemma {:induction false} CollapseUpper(s: string)
    ensures Collapse(ToUpper(s)) == ToUpper(Collapse(s))
    decreases |s|
  {
    if |s| > 1 {
      var u := ToUpper(s);
      CollapseUpper(s[1..]);
      assert u[1..] == ToUpper(s[1..]);
      UpperBackslash(s[0]);
      UpperBackslash(s[1]);
      if !(s[0] == '\\' && s[1] == '\\') {
        var rest := Collapse(s[1..]);
        assert Collapse(u) == [u[0]] + Collapse(u[1..]);
        UpperCons(s[0], rest);
      }
    }
  }

  /** The non-empty parts of a path between backslashes: currentPath.split('\\').filter(p => p). */
  function Segments(s: string): (r: seq<string>)
    ensures forall k :: 0 <= k < |r| ==> r[k] != "" && '\\' !in r[k]
    decreases |s|
  {
    if s == [] then []
    else if s[0] == '\\' then Segments(s[1..])
    else
      var w := WordLength(s);
      [s[..w]] + Segments(s[w..])
  }

  /** The length of the leading part of s up to, not including, the first backslash. */
  function WordLength(s: string): (n: nat)
    ensures n <= |s| && '\\' !in s[..n]
    ensures n < |s| ==> s[n] == '\\'
    ensures |s| > 0 && s[0] != '\\' ==> n > 0
  {
    if s == [] || s[0] == '\\' then 0
    else
      var n := WordLength(s[1..]);
      assert s[..n + 1] == [s[0]] + s[1..][..n];
      n + 1
  }

  /** Each part followed by one backslash. */
  function Terminated(parts: seq<string>): string {
    if parts == [] then "" else parts[0] + "\\" + Terminated(parts[1..])
  }

  /** A part and its backslash come back as the first segment. */
  lemma SegmentsCons(p: string, rest: string)
    requires p != "" && '\\' !in p
    ensures Segments(p + "\\" + rest) == [p] + Segments(rest)
  {
    var s := p + "\\" + rest;
    var tail := "\\" + rest;
    assert s == p + tail;
    WordLengthOf(p, tail);
    assert s[0] == p[0] != '\\';
    assert s[..|p|] == p;
    assert s[|p|..] == tail;
    assert tail[1..] == rest;
    assert Segments(tail) == Segments(rest);
  }

  /** The word of p + rest is p when rest starts with a backslash. */
  lemma {:induction false} WordLengthOf(p: string, rest: string)
    requires '\\' !in p && rest != [] && rest[0] == '\\'
    ensures WordLength(p + rest) == |p|
    decreases |p|
  {
    if p != [] {
      assert (p + rest)[1..] == p[1..] + rest;
      WordLengthOf(p[1..], rest);
    } else {
      assert p + rest == rest;
    }
  }

  /** Segments read back the parts that were joined with backslashes. */
  lemma {:induction false} SegmentsTerminated(parts: seq<string>)
    requires forall k :: 0 <= k < |parts| ==> parts[k] != "" && '\\' !in parts[k]
    ensures Segments(Terminated(parts)) == parts
    decreases |parts|
  {
    if parts != [] {
      SegmentsCons(parts[0], Terminated(parts[1..]));
      SegmentsTerminated(parts[1..]);
    }
  }

  /** The path goBack lists: all segments but the last, each followed by '\\'; none for one segment or none. */
  function Parent(path: string): (r: Option<string>) {
    var parts := Segments(path);
    if |parts| > 1 then Some(Terminated(parts[..|parts| - 1])) else None
  }

  /** goBack goes up exactly one level: the parent has the segments of the path minus its last one. */
  lemma ParentDropsLastSegment(path: string)
    ensures Parent(path).Some? <==> |Segments(path)| > 1
    ensures Parent(path).Some? ==>
      var parts := Segments(path);
      Segments(Parent(path).value) == parts[..|parts| - 1]
      && Parent(path).value[|Parent(path).value| - 1] == '\\'
  {
    var parts := Segments(path);
    if |parts| > 1 {
      SegmentsTerminated(parts[..|parts| - 1]);
      TerminatedEnds(parts[..|parts| - 1]);
    }
  }

  /** A non-empty terminated text ends with a backslash. */
  lemma {:induction false} TerminatedEnds(parts: seq<string>)
    requires parts != []
    ensures |Terminated(parts)| > 0 && Terminated(parts)[|Terminated(parts)| - 1] == '\\'
    decreases |parts|
  {
    if |parts| > 1 {
      TerminatedEnds(parts[1..]);
    }
  }

  // ---------------------------------------------------------------- base64 checks

  /** The per-chunk check /^[A-Za-z0-9+\/=]*$/: alphabet characters and '=' only. */
  predicate IsChunkText(data: string) {
    forall i :: 0 <= i < |data| ==> IsAlphabetChar(data[i]) || data[i] == '='
  }

  /** The length of the longest prefix of alphabet characters. */
  function AlphabetPrefix(s: string): (k: nat)
    ensures k <= |s| && AllAlphabet(s[..k])
    ensures k < |s| ==> !IsAlphabetChar(s[k])
  {
    if s == [] || !IsAlphabetChar(s[0]) then 0
    else
      var k := AlphabetPrefix(s[1..]);
      assert s[..k + 1] == [s[0]] + s[1..][..k];
      k + 1
  }

  /**
   * isValidBase64: a non-empty text matching /^[A-Za-z0-9+\/]*={0,2}$/,
   * read as the alphabet run followed by at most two '='.
   */
  predicate IsValidBase64(s: string) {
    var k := AlphabetPrefix(s);
    |s| > 0 && |s| - k <= 2 && forall i :: k <= i < |s| ==> s[i] == '='
  }

  /** The check matches the pattern: some split into alphabet characters and at most two '='. */
  lemma ValidBase64Iff(s: string)
    ensures IsValidBase64(s) <==>
      |s| > 0 && exists k :: 0 <= k <= |s| && |s| - k <= 2 && AllAlphabet(s[..k]) && forall i :: k <= i < |s| ==> s[i] == '='
  {
    var a := AlphabetPrefix(s);
    if |s| > 0 && exists k :: 0 <= k <= |s| && |s| - k <= 2 && AllAlphabet(s[..k]) && forall i :: k <= i < |s| ==> s[i] == '=' {
      var k :| 0 <= k <= |s| && |s| - k <= 2 && AllAlphabet(s[..k]) && forall i :: k <= i < |s| ==> s[i] == '=';
      if k < a {
        assert s[k] == '=' && IsAlphabetChar(s[..a][k]);
      }
    }
  }

  /** The base64 of any byte string passes the whole-text check, if it is not empty. */
  lemma EncodingIsValid(b: seq<byte>)
    requires b != []
    ensures IsValidBase64(Encode(b))
  {
    var e := Encode(b);
    EncodeShape(b);
    EncodeLength(b);
    ValidBase64Iff(e);
    var k := |e| - PadCount(|b|);
    assert 0 <= k <= |e| && |e| - k <= 2 && AllAlphabet(e[..k]) && forall i :: k <= i < |e| ==> e[i] == '=';
  }

  /** The base64 of any byte string passes the per-chunk check. */
  lemma EncodingIsChunkText(b: seq<byte>)
    ensures IsChunkText(Encode(b))
  {
    var e := Encode(b);
    EncodeShape(b);
    var k := |e| - PadCount(|b|);
    forall i | 0 <= i < |e| ensures IsAlphabetChar(e[i]) || e[i] == '=' {
      if i < k {
        assert e[..k][i] == e[i];
      }
    }
  }

  // ---------------------------------------------------------------- downloads in progress

  /** A download in progress (a value of downloadingFiles): the chunk texts by index, with holes. */
  datatype Entry = Entry(fileName: string, chunks: seq<Option<string>>, size: int, contentType: Option<string>, originalPath: string)

  /** The outcome file_end reports. */
  datatype EndOutcome =
    | UnknownDownload                            // no entry under the key: nothing happens
    | MissingChunks(indices: seq<nat>)           // gaps below the highest index: the entry stays
    | NoChunks                                   // nothing received: the entry stays
    | InvalidBase64                              // the joined text fails isValidBase64: the entry stays
    | Saved(fileName: string, bytes: Option<seq<byte>>)  // decoded (None: decoding threw) and the entry dropped

  /** fileInfo.chunks[index] = data on a JavaScript array: it grows to index + 1, with holes. */
  function Put(chunks: seq<Option<string>>, index: nat, data: string): (r: seq<Option<string>>)
    ensures |r| == if index < |chunks| then |chunks| else index + 1
    ensures r[index] == Some(data)
    ensures forall i :: 0 <= i < |r| && i != index ==> r[i] == if i < |chunks| then chunks[i] else None
  {
    if index < |chunks| then chunks[index := Some(data)]
    else chunks + seq(index - |chunks|, _ => None) + [Some(data)]
  }

  /** A slot that the truthiness test `if (fileInfo.chunks[i])` accepts: present and not "". */
  predicate Holds(slot: Option<string>) {
    slot.Some? && slot.value != ""
  }

  /** The texts of the accepted slots, in index order. */
  function Received(slots: seq<Option<string>>): (r: seq<string>)
    ensures |r| <= |slots|
  {
    if slots == [] then []
    else
      var last := slots[|slots| - 1];
      Received(slots[..|slots| - 1]) + if Holds(last) then [last.value] else []
  }

  /** The indices of the slots the test rejects, in increasing order. */
  function Missing(slots: seq<Option<string>>): (r: seq<nat>)
    ensures forall k :: 0 <= k < |r| ==> r[k] < |slots| && !Holds(slots[r[k]])
    ensures forall k, l :: 0 <= k < l < |r| ==> r[k] < r[l]
  {
    if slots == [] then []
    else
      var n := |slots| - 1;
      var m := Missing(slots[..n]);
      m + if Holds(slots[n]) then [] else [n]
  }

  /** Every rejected slot is reported: Missing lists exactly the empty slots below the length. */
  lemma {:induction false} MissingComplete(slots: seq<Option<string>>, i: nat)
    requires i < |slots| && !Holds(slots[i])
    ensures i in Missing(slots)
    decreases |slots|
  {
    var n := |slots| - 1;
    if i < n {
      assert slots[..n][i] == slots[i];
      MissingComplete(slots[..n], i);
    }
  }

  /** With no gaps, the received texts are all the slots, in order. */
  lemma {:induction false} NoGapsReceivesAll(slots: seq<Option<string>>)
    requires Missing(slots) == []
    ensures |Received(slots)| == |slots|
    ensures forall i :: 0 <= i < |slots| ==> Holds(slots[i]) && Received(slots)[i] == slots[i].value
    decreases |slots|
  {
    if slots != [] {
      var n := |slots| - 1;
      var front := slots[..n];
      assert Missing(front) == [] && Holds(slots[n]);
      NoGapsReceivesAll(front);
      var r := Received(slots);
      assert r == Received(front) + [slots[n].value];
      forall i | 0 <= i < |slots| ensures Holds(slots[i]) && r[i] == slots[i].value {
        if i < n {
          assert front[i] == slots[i];
        }
      }
    }
  }

  /** chunks.join(''): the texts one after the other. */
  function Joined(texts: seq<string>): string {
    if texts == [] then "" else texts[0] + Joined(texts[1..])
  }

  /** The state of the download map after file_start: size and type of a registered entry. */
  function Started(downloads: map<string, Entry>, path: string, size: int, contentType: string): map<string, Entry> {
    var key := NormalizePath(path);
    if key in downloads then downloads[key := downloads[key].(size := size, contentType := Some(contentType))]
    else downloads
  }

  /** The state after file_chunk: the text stored at its index if the entry exists and the text is clean. */
  function Stored(downloads: map<string, Entry>, path: string, index: nat, data: string): map<string, Entry> {
    var key := NormalizePath(path);
    if key in downloads && IsChunkText(data) then downloads[key := downloads[key].(chunks := Put(downloads[key].chunks, index, data))]
    else downloads
  }

  /**
   * The outcome of file_end and the map after it: a gap, no chunk or an
   * invalid joined text leaves the entry in place; otherwise the text is
   * decoded and the entry removed.
   */
  function Ended(downloads: map<string, Entry>, path: string): (map<string, Entry>, EndOutcome) {
    var key := NormalizePath(path);
    if key !in downloads then (downloads, UnknownDownload)
    else
      var e := downloads[key];
      var missing := Missing(e.chunks);
      if missing != [] then (downloads, MissingChunks(missing))
      else
        var texts := Received(e.chunks);
        if texts == [] then (downloads, NoChunks)
        else
          var all := Joined(texts);
          if !IsValidBase64(all) then (downloads, InvalidBase64)
          else (downloads - {key}, Saved(e.fileName, DecodeDownload(all)))
  }

  // ---------------------------------------------------------------- decoding

  /** maxChunkSize: the window of base64 text decoded at a time. */
  const Window: nat := 1024 * 1024

  /** A text padded with '=' to a multiple of four characters. */
  function Padded(s: string): (r: string)
    ensures |s| <= |r| < |s| + 4 && |r| % 4 == 0 && r[..|s|] == s
    ensures forall i :: |s| <= i < |r| ==> r[i] == '='
  {
    s + seq((4 - |s| % 4) % 4, _ => '=')
  }

  /** The window starting at i: concatenated.substring(i, i + maxChunkSize). */
  function WindowAt(s: string, i: nat): (w: string)
    requires i < |s|
    ensures |w| == if i + Window < |s| then Window else |s| - i
  {
    if i + Window < |s| then s[i..i + Window] else s[i..]
  }

  /** The byte arrays of the windows from i on, each padded and decoded; None when one fails. */
  function WindowParts(s: string, i: nat): Option<seq<seq<byte>>>
    decreases |s| - i
  {
    if i >= |s| then Some([])
    else match Decode(Padded(WindowAt(s, i)))
      case None => None
      case Some(b) =>
        match WindowParts(s, i + Window)
        case None => None
        case Some(rest) => Some([b] + rest)
  }

  /**
   * downloadFileFromChunks: an empty text throws; a text over 1 MiB is
   * decoded window by window and the parts merged; a shorter one at once.
   */
  function DecodeDownload(s: string): Option<seq<byte>> {
    if |s| == 0 then None
    else if |s| > Window then
      match WindowParts(s, 0)
      case None => None
      case Some(parts) => Some(FileService.Concat(parts))
    else Decode(s)
  }

  /** The gap scan of onFileDownloadEnd: accepted texts pushed to chunks, the other indices to missingIndices. */
  method ScanChunks(slots: seq<Option<string>>) returns (texts: seq<string>, missing: seq<nat>)
    ensures texts == Received(slots) && missing == Missing(slots)
  {
    texts, missing := [], [];
    var i := 0;
    while i < |slots|
      invariant i <= |slots|
      invariant texts == Received(slots[..i]) && missing == Missing(slots[..i])
    {
      assert slots[..i + 1][..i] == slots[..i];
      if Holds(slots[i]) {
        texts := texts + [slots[i].value];
      } else {
        missing := missing + [i];
      }
      i := i + 1;
    }
    assert slots[..i] == slots;
  }

  /** while (paddedChunk.length % 4 !== 0) paddedChunk += '=' */
  method PadToQuad(s: string) returns (padded: string)
    ensures padded == Padded(s)
  {
    padded := s;
    while |padded| % 4 != 0
      invariant |s| <= |padded| <= |Padded(s)| && padded == Padded(s)[..|padded|]
      decreases |Padded(s)| - |padded|
    {
      padded := padded + "=";
    }
  }

  /** The decode loop over 1 MiB windows: each window padded and decoded, the byte arrays kept in order. */
  method DecodeWindows(s: string) returns (parts: Option<seq<seq<byte>>>)
    ensures parts == WindowParts(s, 0)
  {
    var arrays: seq<seq<byte>> := [];
    var i := 0;
    assert WindowParts(s, 0).Some? ==> [] + WindowParts(s, 0).value == WindowParts(s, 0).value;
    while i < |s|
      invariant WindowParts(s, 0) == Prepend(arrays, WindowParts(s, i))
      decreases |s| - i
    {
      var window := WindowAt(s, i);
      var padded := PadToQuad(window);
      var bytes := Decode(padded);
      if bytes.None? {
        return None;
      }
      var rest := WindowParts(s, i + Window);
      assert rest.Some? ==> arrays + ([bytes.value] + rest.value) == (arrays + [bytes.value]) + rest.value;
      arrays := arrays + [bytes.value];
      i := i + Window;
    }
    assert arrays + [] == arrays;
    parts := Some(arrays);
  }

  /** Lists already produced, followed by what the rest produces. */
  function Prepend<T>(done: seq<T>, rest: Option<seq<T>>): Option<seq<T>> {
    if rest.None? then None else Some(done + rest.value)
  }

  /** The total length of the parts: byteArrays.reduce((sum, arr) => sum + arr.length, 0). */
  function TotalLength(parts: seq<seq<byte>>): (n: nat)
    ensures n == |FileService.Concat(parts)|
  {
    if parts == [] then 0 else |parts[0]| + TotalLength(parts[1..])
  }

  /** The parts from k on: the k-th part, then the rest. */
  lemma ConcatFrom(parts: seq<seq<byte>>, k: nat)
    requires k < |parts|
    ensures FileService.Concat(parts[k..]) == parts[k] + FileService.Concat(parts[k + 1..])
    ensures TotalLength(parts[k..]) == |parts[k]| + TotalLength(parts[k + 1..])
  {
    assert parts[k..][1..] == parts[k + 1..];
  }

  /** Uint8Array.prototype.set: src is copied into a from offset on; the rest of a is left as it was. */
  method SetAt(a: array<byte>, src: seq<byte>, offset: nat)
    requires offset + |src| <= a.Length
    modifies a
    ensures a[..] == old(a[..offset]) + src + old(a[offset + |src|..])
  {
    var j := 0;
    while j < |src|
      invariant j <= |src|
      invariant a[..] == old(a[..offset]) + src[..j] + old(a[offset + j..])
    {
      ghost var m0 := a[..];
      a[offset + j] := src[j];
      CopyStep(m0, a[..], old(a[..offset]), src, old(a[offset + j..]), j);
      j := j + 1;
    }
    assert src[..j] == src;
  }

  /** Writing the next source byte over the first byte of the untouched tail. */
  lemma CopyStep(m0: seq<byte>, m1: seq<byte>, head: seq<byte>, src: seq<byte>, tail: seq<byte>, j: nat)
    requires j < |src| && |tail| > 0 && m0 == head + src[..j] + tail
    requires m1 == m0[|head| + j := src[j]]
    ensures m1 == head + src[..j + 1] + tail[1..]
  {
    assert src[..j + 1] == src[..j] + [src[j]];
  }

  /** The merge loop: each array copied into one buffer at the running offset. */
  method MergeParts(parts: seq<seq<byte>>) returns (merged: array<byte>)
    ensures fresh(merged) && merged[..] == FileService.Concat(parts)
  {
    merged := new byte[TotalLength(parts)](_ => 0);
    var offset: nat := 0;
    var k := 0;
    while k < |parts|
      invariant k <= |parts| && offset <= merged.Length
      invariant offset + TotalLength(parts[k..]) == merged.Length
      invariant merged[..offset] + FileService.Concat(parts[k..]) == FileService.Concat(parts)
    {
      var arr := parts[k];
      ConcatFrom(parts, k);
      ghost var before := merged[..offset];
      SetAt(merged, arr, offset);
      MergeStep(merged[..], before, arr, offset, FileService.Concat(parts[k + 1..]), FileService.Concat(parts[k..]));
      offset := offset + |arr|;
      k := k + 1;
    }
    assert parts[k..] == [];
    assert merged[..offset] == merged[..];
  }

  /** After one copy the filled prefix has grown by the part just copied. */
  lemma MergeStep(m: seq<byte>, before: seq<byte>, arr: seq<byte>, offset: nat, rest: seq<byte>, fromK: seq<byte>)
    requires |before| == offset && offset + |arr| <= |m|
    requires m[..offset + |arr|] == before + arr && fromK == arr + rest
    ensures m[..offset + |arr|] + rest == before + fromK
  {
  }

  /** downloadFileFromChunks: join, refuse an empty text, decode by windows above 1 MiB, else at once. */
  method DownloadFileFromChunks(chunks: seq<string>) returns (bytes: Option<seq<byte>>)
    ensures bytes == DecodeDownload(Joined(chunks))
  {
    var concatenated := Joined(chunks);
    if |concatenated| == 0 {
      return None;
    }
    if |concatenated| > Window {
      var parts := DecodeWindows(concatenated);
      if parts.None? {
        return None;
      }
      var merged := MergeParts(parts.value);
      bytes := Some(merged[..]);
    } else {
      bytes := Decode(concatenated);
    }
  }

  // ---------------------------------------------------------------- the manager

  /** The back entry is shown unless the path is a drive root: "C:\\", "C:" or one letter, ':' and '\\'. */
  predicate HasBackButton(path: string) {
    path != "C:\\" && path != "C:" &&
    !(|path| == 3 && (IsUpper(path[0]) || IsLower(path[0])) && path[1] == ':' && path[2] == '\\')
  }

  /** FileManagerManager: the current path, the downloads in progress and the commands sent. */
  class FileManagerManager {
    var currentPath: string
    var downloads: map<string, Entry>
    var outbox: seq<string>

    constructor()
      ensures currentPath == "C:\\" && downloads == map[] && outbox == []
    {
      currentPath := "C:\\";
      downloads := map[];
      outbox := [];
    }

    /** listDirectory: send `list_dir <path>`. */
    method ListDirectory(path: string)
      modifies this
      ensures outbox == old(outbox) + ["list_dir " + path]
      ensures currentPath == old(currentPath) && downloads == old(downloads)
    {
      outbox := outbox + ["list_dir " + path];
    }

    /** openPath: a blank input does nothing; otherwise it becomes the current path and is listed. */
    method OpenPath(input: string)
      modifies this
      ensures downloads == old(downloads)
      ensures Trim(input) == "" ==> currentPath == old(currentPath) && outbox == old(outbox)
      ensures Trim(input) != "" ==> currentPath == Trim(input) && outbox == old(outbox) + ["list_dir " + Trim(input)]
    {
      var path := Trim(input);
      if path == "" {
        return;
      }
      currentPath := path;
      ListDirectory(path);
    }

    /** refreshCurrentPath: list the current path again. */
    method RefreshCurrentPath()
      modifies this
      ensures outbox == old(outbox) + ["list_dir " + old(currentPath)]
      ensures currentPath == old(currentPath) && downloads == old(downloads)
    {
      ListDirectory(currentPath);
    }

    /**
     * onFileListReceived and renderFileList: the listed path becomes the
     * current one; the entries are shown folders first, each group by name,
     * after a back entry unless the path is a drive root.
     */
    method OnFileListReceived(path: string, items: seq<FileEntry>, before: (string, string) -> bool)
      returns (back: bool, shown: seq<FileEntry>)
      modifies this
      ensures currentPath == path && downloads == old(downloads) && outbox == old(outbox)
      ensures back == HasBackButton(path)
      ensures shown == Ordering.DisplayOrder(before, items)
    {
      currentPath := path;
      back := HasBackButton(path);
      shown := Ordering.DisplayOrder(before, items);
    }

    /** goBack: list the parent, when the path has more than one segment. */
    method GoBack(path: string)
      modifies this
      ensures Parent(path).Some? ==> outbox == old(outbox) + ["list_dir " + Parent(path).value]
      ensures Parent(path).None? ==> outbox == old(outbox)
      ensures currentPath == old(currentPath) && downloads == old(downloads)
    {
      var parent := Parent(path);
      if parent.Some? {
        ListDirectory(parent.value);
      }
    }

    /** downloadFile: a fresh entry under the normalised key, replacing any earlier one, then the request. */
    method DownloadFile(filePath: string, fileName: string)
      modifies this
      ensures downloads == old(downloads)[NormalizePath(filePath) := Entry(fileName, [], 0, None, filePath)]
      ensures outbox == old(outbox) + ["download_file " + filePath]
      ensures currentPath == old(currentPath)
    {
      var key := NormalizePath(filePath);
      downloads := downloads[key := Entry(fileName, [], 0, None, filePath)];
      outbox := outbox + ["download_file " + filePath];
    }

    /** onFileDownloadStart: record size and type of a registered download. */
    method OnFileDownloadStart(path: string, size: int, contentType: string)
      modifies this
      ensures downloads == Started(old(downloads), path, size, contentType)
      ensures currentPath == old(currentPath) && outbox == old(outbox)
    {
      var key := NormalizePath(path);
      if key in downloads {
        var e := downloads[key];
        downloads := downloads[key := e.(size := size, contentType := Some(contentType))];
      }
    }

    /** onFileChunkReceived: store a clean chunk text of a registered download at its index. */
    method OnFileChunkReceived(path: string, index: nat, data: string)
      modifies this
      ensures downloads == Stored(old(downloads), path, index, data)
      ensures currentPath == old(currentPath) && outbox == old(outbox)
    {
      var key := NormalizePath(path);
      if key !in downloads {
        return;
      }
      var e := downloads[key];
      if !IsChunkText(data) {
        return;
      }
      downloads := downloads[key := e.(chunks := Put(e.chunks, index, data))];
    }

    /** onFileDownloadEnd: the gap scan, the checks, the decoding and the removal of the entry. */
    method OnFileDownloadEnd(path: string) returns (outcome: EndOutcome)
      modifies this
      ensures (downloads, outcome) == Ended(old(downloads), path)
      ensures currentPath == old(currentPath) && outbox == old(outbox)
    {
      var key := NormalizePath(path);
      if key !in downloads {
        return UnknownDownload;
      }
      var e := downloads[key];
      var chunks, missing := ScanChunks(e.chunks);
      if |missing| > 0 {
        return MissingChunks(missing);
      }
      if |chunks| == 0 {
        return NoChunks;
      }
      var concatenated := Joined(chunks);
      if !IsValidBase64(concatenated) {
        return InvalidBase64;
      }
      var bytes := DownloadFileFromChunks(chunks);
      downloads := downloads - {key};
      outcome := Saved(e.fileName, bytes);
    }
  }

  // ---------------------------------------------------------------- decoding properties

  /** The merged bytes of the window parts. */
  function Merged(parts: Option<seq<seq<byte>>>): Option<seq<byte>> {
    if parts.None? then None else Some(FileService.Concat(parts.value))
  }

  /** One window's bytes, then the rest's: the parts merge in window order. */
  lemma MergedStep(s: string, i: nat)
    requires i < |s|
    ensures Merged(WindowParts(s, i)) == Join(Decode(Padded(WindowAt(s, i))), Merged(WindowParts(s, i + Window)))
  {
    match Decode(Padded(WindowAt(s, i)))
    case None =>
    case Some(b) =>
      match WindowParts(s, i + Window)
      case None =>
      case Some(rest) =>
        assert ([b] + rest)[1..] == rest;
  }

  /**
   * Decoding window by window agrees with decoding at once, for a text of
   * whole groups whose padding, if any, is in its last group: the windows
   * are a multiple of four long, so each one but the last is whole groups
   * of alphabet characters.
   */
  lemma {:induction false} WindowsAgree(s: string, i: nat)
    requires WindowStart(s, i)
    ensures Merged(WindowParts(s, i)) == Decode(s[i..])
    decreases |s| - i
  {
    if i == |s| {
      NoWindowLeft(s);
    } else if i + Window < |s| {
      NextWindowStart(s, i);
      WindowsAgree(s, i + Window);
      InnerStep(s, i);
    } else {
      LastStep(s, i);
    }
  }

  /** Past the end there is nothing to decode either way. */
  lemma NoWindowLeft(s: string)
    ensures Merged(WindowParts(s, |s|)) == Decode(s[|s|..])
  {
    assert s[|s|..] == [];
  }

  /**
   * Where a window may start in a text of whole groups whose padding, if
   * any, is in its last group: on a group boundary.
   */
  predicate WindowStart(s: string, i: nat) {
    |s| % 4 == 0 && i % 4 == 0 && i <= |s| && forall j :: 0 <= j < |s| - 4 ==> IsAlphabetChar(s[j])
  }

  /** A window is whole groups of four: the next window starts on a group boundary too. */
  lemma NextWindowStart(s: string, i: nat)
    requires WindowStart(s, i) && i + Window < |s|
    ensures WindowStart(s, i + Window)
  {
    assert i + Window == 4 * (i / 4 + 262144);
  }

  /** The windows from i on, given the windows after the first. */
  lemma InnerStep(s: string, i: nat)
    requires |s| % 4 == 0 && i % 4 == 0 && i + Window < |s|
    requires forall j :: 0 <= j < |s| - 4 ==> IsAlphabetChar(s[j])
    requires Merged(WindowParts(s, i + Window)) == Decode(s[i + Window..])
    ensures Merged(WindowParts(s, i)) == Decode(s[i..])
  {
    MergedStep(s, i);
    InnerWindow(s, i);
  }

  /** The last window alone. */
  lemma LastStep(s: string, i: nat)
    requires |s| % 4 == 0 && i % 4 == 0 && i < |s| <= i + Window
    ensures Merged(WindowParts(s, i)) == Decode(s[i..])
  {
    MergedStep(s, i);
    LastWindow(s, i);
  }

  /** A window that is not the last is whole groups of alphabet characters, so its bytes lead the rest's. */
  lemma InnerWindow(s: string, i: nat)
    requires |s| % 4 == 0 && i % 4 == 0 && i + Window < |s|
    requires forall j :: 0 <= j < |s| - 4 ==> IsAlphabetChar(s[j])
    ensures Join(Decode(Padded(WindowAt(s, i))), Decode(s[i + Window..])) == Decode(s[i..])
  {
    var w := WindowAt(s, i);
    assert w == s[i..i + Window];
    PaddedWhole(w);
    assert s[i..] == w + s[i + Window..];
    assert AllAlphabet(w) by {
      forall j | 0 <= j < |w| ensures IsAlphabetChar(w[j]) {
        assert w[j] == s[i + j];
      }
    }
    DecodeAppend(w, s[i + Window..]);
  }

  /** Padding a text of whole groups adds nothing. */
  lemma PaddedWhole(w: string)
    requires |w| % 4 == 0
    ensures Padded(w) == w
  {
    assert seq((4 - |w| % 4) % 4, _ => '=') == [];
  }

  /** The last window is the whole rest, already a multiple of four long. */
  lemma LastWindow(s: string, i: nat)
    requires |s| % 4 == 0 && i % 4 == 0 && i < |s| <= i + Window
    ensures Join(Decode(Padded(WindowAt(s, i))), Merged(WindowParts(s, i + Window))) == Decode(s[i..])
  {
    var w := WindowAt(s, i);
    assert w == s[i..];
    PaddedWhole(w);
    var d := Decode(w);
    assert Merged(WindowParts(s, i + Window)) == Some([]);
    if d.Some? {
      assert d.value + [] == d.value;
    }
  }

  /** A well-formed text, whole groups with padding at most in the last, decodes the same either way. */
  lemma DecodeDownloadWhole(s: string)
    requires s != [] && |s| % 4 == 0
    requires forall j :: 0 <= j < |s| - 4 ==> IsAlphabetChar(s[j])
    ensures DecodeDownload(s) == Decode(s)
  {
    if |s| > Window {
      WindowsAgree(s, 0);
      assert s[0..] == s;
    }
  }

  /** Four characters per group of three bytes. */
  lemma QuadLength(n: nat)
    requires n > 0
    ensures 4 * ((n + 2) / 3) > 0 && (4 * ((n + 2) / 3)) % 4 == 0
  {
    var q := (n + 2) / 3;
    assert q >= 1;
    assert (4 * q) % 4 == 0 by {
      assert 4 * q == 4 * (q - 1) + 4;
    }
  }

  /** The base64 of a non-empty byte string is whole groups, with padding only in the last. */
  lemma EncodingWhole(b: seq<byte>)
    requires b != []
    ensures var e := Encode(b);
      e != [] && |e| % 4 == 0 && forall j :: 0 <= j < |e| - 4 ==> IsAlphabetChar(e[j])
  {
    var e := Encode(b);
    EncodeLength(b);
    QuadLength(|b|);
    EncodeShape(b);
    var k := |e| - PadCount(|b|);
    forall j | 0 <= j < |e| - 4 ensures IsAlphabetChar(e[j]) {
      assert e[..k][j] == e[j];
    }
  }

  /** The download decoder gives back the bytes of any non-empty encoding, by windows or at once. */
  lemma DecodeDownloadEncoding(b: seq<byte>)
    requires b != []
    ensures DecodeDownload(Encode(b)) == Some(b)
  {
    DecodeEncode(b);
    EncodingWhole(b);
    DecodeDownloadWhole(Encode(b));
  }

  // ---------------------------------------------------------------- a download end to end

  /** What the manager's map becomes on each server message; other messages leave it alone. */
  function Receive(downloads: map<string, Entry>, m: Message): map<string, Entry> {
    match m
    case FileStart(path, size, contentType) => Started(downloads, path, size, contentType)
    case FileChunk(index, path, data) => Stored(downloads, path, index, data)
    case FileEnd(path, _) => Ended(downloads, path).0
    case _ => downloads
  }

  /** The map after a list of messages, in order. */
  function Deliver(downloads: map<string, Entry>, msgs: seq<Message>): map<string, Entry> {
    if msgs == [] then downloads
    else Receive(Deliver(downloads, msgs[..|msgs| - 1]), msgs[|msgs| - 1])
  }

  /** file_end never reads totalChunks: the count it carries changes nothing. */
  lemma EndIgnoresTotal(downloads: map<string, Entry>, path: string, total1: nat, total2: nat)
    ensures Receive(downloads, FileEnd(path, total1)) == Receive(downloads, FileEnd(path, total2))
  {
  }

  /** A slot per text, each holding it. */
  function Slots(texts: seq<string>): (r: seq<Option<string>>)
    ensures |r| == |texts| && forall i :: 0 <= i < |r| ==> r[i] == Some(texts[i])
  {
    seq(|texts|, i requires 0 <= i < |texts| => Some(texts[i]))
  }

  /** The base64 texts of the chunks, in order. */
  function Encodings(chunks: seq<seq<byte>>): (r: seq<string>)
    ensures |r| == |chunks| && forall i :: 0 <= i < |r| ==> r[i] == Encode(chunks[i])
  {
    seq(|chunks|, i requires 0 <= i < |chunks| => Encode(chunks[i]))
  }

  /** The registered entry once file_start and the chunks carrying these texts have arrived. */
  function Filled(e: Entry, size: int, contentType: string, texts: seq<string>): Entry {
    e.(size := size, contentType := Some(contentType), chunks := Slots(texts))
  }

  /** A clean chunk numbered with the entry's length is appended to it. */
  lemma StoredAppends(d: map<string, Entry>, path: string, text: string)
    requires NormalizePath(path) in d && IsChunkText(text)
    ensures var key := NormalizePath(path);
      Stored(d, path, |d[key].chunks|, text) == d[key := d[key].(chunks := d[key].chunks + [Some(text)])]
  {
    var key := NormalizePath(path);
    var slots := d[key].chunks;
    assert Put(slots, |slots|, text) == slots + [Some(text)];
  }

  /**
   * Delivering file_start and the first k of a run of chunk messages,
   * numbered from 0, to a freshly registered entry: it holds each of those
   * texts at its own index, with the size and type set.
   */
  lemma {:induction false} ChunksArrive(d0: map<string, Entry>, path: string, size: nat, contentType: string, cm: seq<Message>, texts: seq<string>, k: nat)
    requires NormalizePath(path) in d0 && d0[NormalizePath(path)].chunks == []
    requires |cm| == |texts| && k <= |cm|
    requires forall i :: 0 <= i < |cm| ==> cm[i] == FileChunk(i, path, texts[i]) && IsChunkText(texts[i])
    ensures var key := NormalizePath(path);
      Deliver(d0, [FileStart(path, size, contentType)] + cm[..k]) == d0[key := Filled(d0[key], size, contentType, texts[..k])]
  {
    if k == 0 {
      StartArrives(d0, path, size, contentType, cm, texts);
    } else {
      ChunksArrive(d0, path, size, contentType, cm, texts, k - 1);
      NextChunkArrives(d0, path, size, contentType, cm, texts, k);
    }
  }

  /** file_start alone fills the registered entry with no chunk. */
  lemma StartArrives(d0: map<string, Entry>, path: string, size: nat, contentType: string, cm: seq<Message>, texts: seq<string>)
    requires NormalizePath(path) in d0 && d0[NormalizePath(path)].chunks == []
    ensures var key := NormalizePath(path);
      Deliver(d0, [FileStart(path, size, contentType)] + cm[..0]) == d0[key := Filled(d0[key], size, contentType, texts[..0])]
  {
    var msgs := [FileStart(path, size, contentType)] + cm[..0];
    assert msgs[..0] == [];
    assert Slots(texts[..0]) == [];
  }

  /** The k-th chunk message, given the map after the first k - 1. */
  lemma NextChunkArrives(d0: map<string, Entry>, path: string, size: nat, contentType: string, cm: seq<Message>, texts: seq<string>, k: nat)
    requires NormalizePath(path) in d0
    requires |cm| == |texts| && 0 < k <= |cm|
    requires cm[k - 1] == FileChunk(k - 1, path, texts[k - 1]) && IsChunkText(texts[k - 1])
    requires var key := NormalizePath(path);
      Deliver(d0, [FileStart(path, size, contentType)] + cm[..k - 1]) == d0[key := Filled(d0[key], size, contentType, texts[..k - 1])]
    ensures var key := NormalizePath(path);
      Deliver(d0, [FileStart(path, size, contentType)] + cm[..k]) == d0[key := Filled(d0[key], size, contentType, texts[..k])]
  {
    var msgs := [FileStart(path, size, contentType)] + cm[..k];
    assert msgs[..|msgs| - 1] == [FileStart(path, size, contentType)] + cm[..k - 1];
    assert msgs[|msgs| - 1] == FileChunk(k - 1, path, texts[k - 1]);
    ArriveStep(d0, path, size, contentType, texts[..k - 1], texts[k - 1]);
    assert texts[..k - 1] + [texts[k - 1]] == texts[..k];
  }

  /** One more clean chunk, numbered with the count so far, is appended to the filled entry. */
  lemma ArriveStep(d0: map<string, Entry>, path: string, size: nat, contentType: string, texts: seq<string>, t: string)
    requires NormalizePath(path) in d0 && IsChunkText(t)
    ensures var key := NormalizePath(path);
      Stored(d0[key := Filled(d0[key], size, contentType, texts)], path, |texts|, t)
        == d0[key := Filled(d0[key], size, contentType, texts + [t])]
  {
    var key := NormalizePath(path);
    var e := Filled(d0[key], size, contentType, texts);
    var before := d0[key := e];
    StoredAppends(before, path, t);
    SlotsSnoc(texts, t);
    UpdateTwice(d0, key, e, e.(chunks := e.chunks + [Some(t)]));
  }

  lemma SlotsSnoc(texts: seq<string>, t: string)
    ensures Slots(texts + [t]) == Slots(texts) + [Some(t)]
  {
  }

  lemma UpdateTwice<K, V>(d: map<K, V>, key: K, a: V, b: V)
    ensures d[key := a][key := b] == d[key := b]
  {
  }

  /** All slots hold a text: nothing is missing. */
  lemma {:induction false} NothingMissing(slots: seq<Option<string>>)
    requires forall i :: 0 <= i < |slots| ==> Holds(slots[i])
    ensures Missing(slots) == []
    decreases |slots|
  {
    if slots != [] {
      NothingMissing(slots[..|slots| - 1]);
    }
  }

  /** Slots filled with non-empty texts: nothing is missing and the texts are received in order. */
  lemma AllArrived(texts: seq<string>)
    requires forall i :: 0 <= i < |texts| ==> texts[i] != ""
    ensures Missing(Slots(texts)) == [] && Received(Slots(texts)) == texts
  {
    NothingMissing(Slots(texts));
    NoGapsReceivesAll(Slots(texts));
  }

  /** file_end on an entry holding every text: the joined text decides, whole or per chunk. */
  lemma EndedWhole(d: map<string, Entry>, path: string, texts: seq<string>)
    requires NormalizePath(path) in d && d[NormalizePath(path)].chunks == Slots(texts)
    requires texts != [] && forall i :: 0 <= i < |texts| ==> texts[i] != ""
    ensures var key, all := NormalizePath(path), Joined(texts);
      Ended(d, path) == (if IsValidBase64(all) then (d - {key}, Saved(d[key].fileName, DecodeDownload(all))) else (d, InvalidBase64))
  {
    AllArrived(texts);
  }

  /** The corrected file_end on an entry holding every text: the texts decoded one by one. */
  lemma EndedPerChunkWhole(d: map<string, Entry>, path: string, texts: seq<string>)
    requires NormalizePath(path) in d && d[NormalizePath(path)].chunks == Slots(texts)
    requires texts != [] && forall i :: 0 <= i < |texts| ==> texts[i] != ""
    ensures var key := NormalizePath(path);
      EndedPerChunk(d, path) == (d - {key}, Saved(d[key].fileName, FileService.DecodeEach(texts)))
  {
    AllArrived(texts);
  }

  /** The chunk messages of a download carry the encodings, numbered from 0, each passing the per-chunk check. */
  lemma ChunkMessagesCarry(path: string, chunks: seq<seq<byte>>)
    ensures var cm, texts := FileService.ChunkMessages(path, chunks), Encodings(chunks);
      |cm| == |texts| && forall i :: 0 <= i < |cm| ==> cm[i] == FileChunk(i, path, texts[i]) && IsChunkText(texts[i])
  {
    forall i | 0 <= i < |chunks| ensures IsChunkText(Encodings(chunks)[i]) {
      EncodingIsChunkText(chunks[i]);
    }
  }

  /** Every read's text is non-empty. */
  lemma EncodingsNonEmpty(data: seq<byte>, grant: nat -> nat)
    ensures var texts := Encodings(FileService.Reads(data, 0, grant));
      forall i :: 0 <= i < |texts| ==> texts[i] != ""
  {
    var chunks := FileService.Reads(data, 0, grant);
    forall i | 0 <= i < |chunks| ensures Encode(chunks[i]) != "" {
      FileService.ReadsBounded(data, 0, grant, i);
      EncodeStartsWithAlphabet(chunks[i]);
    }
  }

  /**
   * Delivering a whole download to a freshly registered entry: the entry
   * file_end finds holds every chunk's text at its index, and the map the
   * manager ends with is what file_end makes of it.
   */
  lemma BeforeEnd(d0: map<string, Entry>, path: string, contentType: string, data: seq<byte>, grant: nat -> nat)
    requires NormalizePath(path) in d0 && d0[NormalizePath(path)].chunks == []
    ensures var key, texts := NormalizePath(path), Encodings(FileService.Reads(data, 0, grant));
      var d := d0[key := Filled(d0[key], |data|, contentType, texts)];
      Deliver(d0, FileService.CompletedDownload(path, contentType, data, grant)) == Ended(d, path).0
  {
    var chunks := FileService.Reads(data, 0, grant);
    ChunkMessagesCarry(path, chunks);
    DeliverRun(d0, path, |data|, contentType, FileService.ChunkMessages(path, chunks), Encodings(chunks), |chunks|);
  }

  /** file_start, a run of chunk messages numbered from 0, then file_end: file_end meets the filled entry. */
  lemma DeliverRun(d0: map<string, Entry>, path: string, size: nat, contentType: string, cm: seq<Message>, texts: seq<string>, total: nat)
    requires NormalizePath(path) in d0 && d0[NormalizePath(path)].chunks == []
    requires |cm| == |texts|
    requires forall i :: 0 <= i < |cm| ==> cm[i] == FileChunk(i, path, texts[i]) && IsChunkText(texts[i])
    ensures var key := NormalizePath(path);
      Deliver(d0, [FileStart(path, size, contentType)] + cm + [FileEnd(path, total)])
        == Ended(d0[key := Filled(d0[key], size, contentType, texts)], path).0
  {
    var msgs := [FileStart(path, size, contentType)] + cm + [FileEnd(path, total)];
    assert cm[..|cm|] == cm && texts[..|texts|] == texts;
    assert msgs[..|msgs| - 1] == [FileStart(path, size, contentType)] + cm[..|cm|];
    ChunksArrive(d0, path, size, contentType, cm, texts, |cm|);
  }

  /** One read, one chunk: the file is decoded back exactly and the entry removed. */
  lemma SingleChunkRoundTrip(d0: map<string, Entry>, path: string, contentType: string, data: seq<byte>, grant: nat -> nat)
    requires NormalizePath(path) in d0 && d0[NormalizePath(path)].chunks == []
    requires |FileService.Reads(data, 0, grant)| == 1
    ensures var key, texts := NormalizePath(path), Encodings(FileService.Reads(data, 0, grant));
      var d := d0[key := Filled(d0[key], |data|, contentType, texts)];
      && Ended(d, path) == (d0 - {key}, Saved(d0[key].fileName, Some(data)))
      && Deliver(d0, FileService.CompletedDownload(path, contentType, data, grant)) == d0 - {key}
  {
    var key, chunks := NormalizePath(path), FileService.Reads(data, 0, grant);
    var texts := Encodings(chunks);
    var d := d0[key := Filled(d0[key], |data|, contentType, texts)];
    BeforeEnd(d0, path, contentType, data, grant);
    OneChunkIsFile(data, grant);
    assert texts == [Encode(data)];
    EncodingIsValid(data);
    DecodeDownloadEncoding(data);
    SingleTextSaved(d, path, Encode(data));
    UpdateThenRemove(d0, key, d[key]);
  }

  /** An entry holding one valid text: file_end saves what the text decodes to and drops the entry. */
  lemma SingleTextSaved(d: map<string, Entry>, path: string, t: string)
    requires NormalizePath(path) in d && d[NormalizePath(path)].chunks == Slots([t])
    requires IsValidBase64(t)
    ensures var key := NormalizePath(path);
      Ended(d, path) == (d - {key}, Saved(d[key].fileName, DecodeDownload(t)))
  {
    assert [t][1..] == [];
    assert t + "" == t;
    assert Joined([t]) == t;
    EndedWhole(d, path, [t]);
  }

  /** Replacing an entry, then removing its key, is removing the key. */
  lemma UpdateThenRemove(d: map<string, Entry>, key: string, e: Entry)
    ensures d[key := e] - {key} == d - {key}
  {
  }

  /** A single read is the whole file. */
  lemma OneChunkIsFile(data: seq<byte>, grant: nat -> nat)
    requires |FileService.Reads(data, 0, grant)| == 1
    ensures FileService.Reads(data, 0, grant) == [data] && data != []
  {
    var chunks := FileService.Reads(data, 0, grant);
    FileService.ReadsConcat(data, 0, grant);
    FileService.ReadsBounded(data, 0, grant, 0);
    assert chunks[1..] == [];
    assert FileService.Concat(chunks) == chunks[0] + FileService.Concat(chunks[1..]);
    assert chunks[0] + [] == chunks[0];
    assert data[0..] == data;
  }

  /** With full reads a file of at most 64 KiB arrives in one chunk. */
  lemma FullReadOneChunk(data: seq<byte>, grant: nat -> nat)
    requires FileService.FullReads(grant) && 0 < |data| <= FileService.BufferSize
    ensures |FileService.Reads(data, 0, grant)| == 1
  {
    FileService.FullReadsCount(data, 0, grant);
  }

  /** An empty file sends no chunk, so file_end reports none and the entry is never completed. */
  lemma EmptyFileStaysPending(d0: map<string, Entry>, path: string, contentType: string, grant: nat -> nat)
    requires NormalizePath(path) in d0 && d0[NormalizePath(path)].chunks == []
    ensures var key := NormalizePath(path);
      var d := d0[key := Filled(d0[key], 0, contentType, [])];
      && Ended(d, path) == (d, NoChunks)
      && key in Deliver(d0, FileService.CompletedDownload(path, contentType, [], grant))
  {
    BeforeEnd(d0, path, contentType, [], grant);
    assert Encodings(FileService.Reads([], 0, grant)) == [];
  }

  /** A '=' followed by an alphabet character cannot pass the whole-text check. */
  lemma PaddingInsideIsInvalid(s: string, i: nat)
    requires i + 1 < |s| && s[i] == '=' && IsAlphabetChar(s[i + 1])
    ensures !IsValidBase64(s)
  {
    var k := AlphabetPrefix(s);
  }

  /**
   * The as-written check refuses every download of more than 64 KiB read
   * in full: the first chunk holds 65536 bytes, 65536 = 3 * 21845 + 1, so
   * its base64 ends in "==", and the next chunk's text follows it inside
   * the joined text.  The entry stays in the map and nothing is saved.
   */
  lemma MultiChunkRejected(d0: map<string, Entry>, path: string, contentType: string, data: seq<byte>, grant: nat -> nat)
    requires NormalizePath(path) in d0 && d0[NormalizePath(path)].chunks == []
    requires FileService.FullReads(grant) && |data| > FileService.BufferSize
    ensures var key, texts := NormalizePath(path), Encodings(FileService.Reads(data, 0, grant));
      var d := d0[key := Filled(d0[key], |data|, contentType, texts)];
      && Ended(d, path) == (d, InvalidBase64)
      && key in Deliver(d0, FileService.CompletedDownload(path, contentType, data, grant))
  {
    var key, chunks := NormalizePath(path), FileService.Reads(data, 0, grant);
    var texts := Encodings(chunks);
    var d := d0[key := Filled(d0[key], |data|, contentType, texts)];
    BeforeEnd(d0, path, contentType, data, grant);
    EncodingsNonEmpty(data, grant);
    FirstTwoChunks(data, grant);
    EndedWhole(d, path, texts);
  }

  /** With full reads of a file over 64 KiB the first text ends in '=' and the second starts with a letter or digit. */
  lemma FirstTwoChunks(data: seq<byte>, grant: nat -> nat)
    requires FileService.FullReads(grant) && |data| > FileService.BufferSize
    ensures !IsValidBase64(Joined(Encodings(FileService.Reads(data, 0, grant))))
  {
    var chunks := FileService.Reads(data, 0, grant);
    FileService.FullReadsCount(data, 0, grant);
    AtLeastTwoReads(|data|);
    assert |chunks| >= 2 && |chunks[0]| == FileService.BufferSize;
    FileService.ReadsBounded(data, 0, grant, 1);
    EncodingEndsPadded(chunks[0]);
    EncodeStartsWithAlphabet(chunks[1]);
    JoinedPaddingInside(Encodings(chunks));
  }

  /** More than 64 KiB takes at least two 64 KiB reads. */
  lemma AtLeastTwoReads(n: nat)
    requires n > FileService.BufferSize
    ensures (n + FileService.BufferSize - 1) / FileService.BufferSize >= 2
  {
  }

  /** A full 64 KiB read, one byte over a multiple of three, encodes to a text ending in "==". */
  lemma EncodingEndsPadded(b: seq<byte>)
    requires |b| == FileService.BufferSize
    ensures |Encode(b)| > 0 && Encode(b)[|Encode(b)| - 1] == '='
  {
    assert PadCount(|b|) == 2;
    EncodeShape(b);
    EncodeLength(b);
  }

  /** A first text ending in '=' followed by one starting with an alphabet character: the join is refused. */
  lemma JoinedPaddingInside(texts: seq<string>)
    requires |texts| >= 2 && |texts[0]| > 0 && texts[0][|texts[0]| - 1] == '='
    requires |texts[1]| > 0 && IsAlphabetChar(texts[1][0])
    ensures !IsValidBase64(Joined(texts))
  {
    var e0 := texts[0];
    var all := Joined(texts);
    assert texts[1..][0] == texts[1];
    assert Joined(texts[1..]) == texts[1] + Joined(texts[1..][1..]);
    assert all == e0 + Joined(texts[1..]);
    assert all[|e0| - 1] == '=';
    assert all[|e0|] == texts[1][0];
    PaddingInsideIsInvalid(all, |e0| - 1);
  }

  /**
   * The corrected end step: decode each chunk on its own and join the
   * bytes, instead of checking and decoding the joined text.
   */
  function EndedPerChunk(downloads: map<string, Entry>, path: string): (map<string, Entry>, EndOutcome) {
    var key := NormalizePath(path);
    if key !in downloads then (downloads, UnknownDownload)
    else
      var e := downloads[key];
      var missing := Missing(e.chunks);
      if missing != [] then (downloads, MissingChunks(missing))
      else
        var texts := Received(e.chunks);
        if texts == [] then (downloads, NoChunks)
        else (downloads - {key}, Saved(e.fileName, FileService.DecodeEach(texts)))
  }

  /** With per-chunk decoding every non-empty download comes back exactly, whatever the read sizes. */
  lemma PerChunkRoundTrip(d0: map<string, Entry>, path: string, contentType: string, data: seq<byte>, grant: nat -> nat)
    requires NormalizePath(path) in d0 && d0[NormalizePath(path)].chunks == []
    requires data != []
    ensures var key, texts := NormalizePath(path), Encodings(FileService.Reads(data, 0, grant));
      var d := d0[key := Filled(d0[key], |data|, contentType, texts)];
      EndedPerChunk(d, path) == (d0 - {key}, Saved(d0[key].fileName, Some(data)))
  {
    var key, texts := NormalizePath(path), Encodings(FileService.Reads(data, 0, grant));
    var d := d0[key := Filled(d0[key], |data|, contentType, texts)];
    PerChunkEntry(d, path, data, grant);
    UpdateThenRemove(d0, key, d[key]);
  }

  /** An entry holding the texts of every read of a non-empty file: the corrected file_end saves the file. */
  lemma PerChunkEntry(d: map<string, Entry>, path: string, data: seq<byte>, grant: nat -> nat)
    requires NormalizePath(path) in d && d[NormalizePath(path)].chunks == Slots(Encodings(FileService.Reads(data, 0, grant)))
    requires data != []
    ensures var key := NormalizePath(path);
      EndedPerChunk(d, path) == (d - {key}, Saved(d[key].fileName, Some(data)))
  {
    var texts := Encodings(FileService.Reads(data, 0, grant));
    EncodingsNonEmpty(data, grant);
    EndedPerChunkWhole(d, path, texts);
    PerChunkDecodes(data, grant);
  }

  /** Each read's text decoded on its own, the bytes joined: the file. */
  lemma PerChunkDecodes(data: seq<byte>, grant: nat -> nat)
    ensures FileService.DecodeEach(Encodings(FileService.Reads(data, 0, grant))) == Some(data)
  {
    var chunks := FileService.Reads(data, 0, grant);
    FileService.DecodeEachEncoded(chunks);
    assert Encodings(chunks) == seq(|chunks|, i requires 0 <= i < |chunks| => Encode(chunks[i]));
    FileService.ReadsConcat(data, 0, grant);
    assert data[0..] == data;
  }
}
