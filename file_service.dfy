/**
 * The server's file access (ServerApp/WebSocketTest/Services/FileService.cs,
 * and its older copy ServerApp/WebSocketTest/FileManager.cs): every path is
 * resolved against an allowed root and refused when it leaves it, listings
 * put directories first, pages are cut with Skip/Take, and a download is
 * streamed as file_start, one file_chunk per read of at most 64 KiB, and
 * file_end.
 *
 * The host is a value: path canonicalisation (Path.GetFullPath) and
 * rootedness are uninterpreted functions, a directory's enumeration is a
 * given listing, and a file is its byte contents.  The size of each read the
 * operating system grants is an input `grant`, clamped to what a stream
 * read can return.
 */
module FileService {
  import opened Wrappers
  import opened Text
  import opened Base64
  import opened Protocol
  import Ordering

  /** The exceptions of the service; each carries the text of its Message. */
  datatype FsError =
    | ArgumentError(paramName: string)
    | Unauthorized
    | DirectoryNotFound(full: string)
    | FileNotFound(full: string)
    | TooLarge

  function ErrorMessage(e: FsError): string {
    match e
    case ArgumentError(p) => p
    case Unauthorized => "Access to path is not allowed"
    case DirectoryNotFound(full) => full
    case FileNotFound(full) => full
    case TooLarge => "File too large to stream"
  }

  datatype DirInfo = DirInfo(name: string, fullName: string, lastWrite: int)
  datatype FileInfo = FileInfo(name: string, fullName: string, length: nat, lastWrite: int)

  /** What Directory.EnumerateDirectories and Directory.EnumerateFiles yield for one directory. */
  datatype Listing = Listing(dirs: seq<DirInfo>, files: seq<FileInfo>)

  /** The host as the service sees it. */
  datatype Host = Host(
    isRooted: string -> bool,
    fullPath: string -> string,
    directories: map<string, Listing>,
    files: map<string, seq<byte>>)

  /** The canonical root and the streaming ceiling fixed when the service is built. */
  datatype Service = Service(root: string, maxStreamBytes: nat)

  /** The ceiling used when the constructor is given none: 1 GiB. */
  const DefaultMaxStreamBytes: nat := 1024 * 1024 * 1024

  /** The size of the read buffer, and so the largest chunk: 64 KiB. */
  const BufferSize: nat := 64 * 1024

  function NewService(host: Host, rootDirectory: string, maxStreamBytes: nat): (r: Result<Service, FsError>)
    ensures r.Ok? <==> !IsBlank(rootDirectory) && host.fullPath(rootDirectory) in host.directories
    ensures r.Ok? ==> r.value.root == host.fullPath(rootDirectory) && r.value.maxStreamBytes == maxStreamBytes
  {
    if IsBlank(rootDirectory) then Err(ArgumentError("rootDirectory"))
    else
      var root := host.fullPath(rootDirectory);
      if root !in host.directories then Err(DirectoryNotFound(root))
      else Ok(Service(root, maxStreamBytes))
  }

  // ---------------------------------------------------------------- paths

  predicate IsSeparator(c: char) { c == '\\' || c == '/' }

  /** Path.Combine for a relative second part: a separator is put between unless the first part ends in one. */
  function Combine(root: string, path: string): (r: string)
    ensures EndsWith(r, path) && StartsWith(r, root)
  {
    if root == [] then path
    else if IsSeparator(root[|root| - 1]) || root[|root| - 1] == ':' then
      assert (root + path)[..|root|] == root;
      root + path
    else
      assert (root + "\\" + path)[..|root|] == root;
      root + "\\" + path
  }

  /**
   * ResolveAndValidatePath: a blank path is refused; a relative path is put
   * under the root; the canonical form must start with the root under an
   * ordinal, case-insensitive comparison.
   */
  function ResolveAndValidatePath(svc: Service, host: Host, path: string): (r: Result<string, FsError>)
    ensures r == Err(ArgumentError("path")) <==> IsBlank(path)
    ensures r.Ok? ==> StartsWithIgnoreCase(r.value, svc.root)
    ensures r.Ok? ==> r.value == host.fullPath(if host.isRooted(path) then path else Combine(svc.root, path))
    ensures r.Err? && !IsBlank(path) ==> r == Err(Unauthorized)
  {
    if IsBlank(path) then Err(ArgumentError("path"))
    else
      var combined := if host.isRooted(path) then path else Combine(svc.root, path);
      var full := host.fullPath(combined);
      if !StartsWithIgnoreCase(full, svc.root) then Err(Unauthorized) else Ok(full)
  }

  /** A path whose canonical form is under the root is accepted, whatever the case of its letters. */
  lemma ResolvedUnderRoot(svc: Service, host: Host, path: string)
    requires !IsBlank(path)
    requires var full := host.fullPath(if host.isRooted(path) then path else Combine(svc.root, path));
      StartsWithIgnoreCase(full, svc.root)
    ensures ResolveAndValidatePath(svc, host, path).Ok?
  {
  }

  /** FileManager.FileExists: the path check, then whether the resolved file exists. */
  function FileExists(svc: Service, host: Host, path: string): (r: Result<bool, FsError>)
    ensures r.Ok? <==> ResolveAndValidatePath(svc, host, path).Ok?
    ensures r.Ok? ==> (r.value <==> ResolveAndValidatePath(svc, host, path).value in host.files)
  {
    match ResolveAndValidatePath(svc, host, path)
    case Err(e) => Err(e)
    case Ok(full) => Ok(full in host.files)
  }

  // ---------------------------------------------------------------- content types

  /** The extension of the last path segment, with its dot; empty when there is none or the dot ends the name (Path.GetExtension). */
  function Extension(p: string): (e: string)
    ensures e == [] || (|e| >= 2 && e[0] == '.' && EndsWith(p, e))
  {
    ExtensionScan(p, [])
  }

  function ExtensionScan(p: string, tail: string): (e: string)
    ensures e == [] || (|e| >= 2 && e[0] == '.' && EndsWith(p + tail, e))
    decreases |p|
  {
    if p == [] then []
    else
      var c := p[|p| - 1];
      if IsSeparator(c) || c == ':' then []
      else if c == '.' then
        if tail == [] then []
        else
          assert (p + tail)[|p + tail| - |[c] + tail|..] == [c] + tail;
          [c] + tail
      else
        assert p[..|p| - 1] + ([c] + tail) == p + tail;
        ExtensionScan(p[..|p| - 1], [c] + tail)
  }

  /** Every leading '.' removed (String.TrimStart('.')). */
  function TrimDots(s: string): (r: string)
    ensures r == [] || r[0] != '.'
    ensures |r| <= |s| && r == s[|s| - |r|..]
  {
    if s != [] && s[0] == '.' then TrimDots(s[1..]) else s
  }

  const OctetStream: string := "application/octet-stream"

  /** The switch expression of GetMimeType, on a trimmed, lower-case extension. */
  function Lookup(key: string): string {
    match key
    case "txt" => "text/plain"
    case "log" => "text/plain"
    case "json" => "application/json"
    case "html" => "text/html"
    case "htm" => "text/html"
    case "jpg" => "image/jpeg"
    case "jpeg" => "image/jpeg"
    case "png" => "image/png"
    case "gif" => "image/gif"
    case "bmp" => "image/bmp"
    case "pdf" => "application/pdf"
    case "zip" => "application/zip"
    case "csv" => "text/csv"
    case "xml" => "application/xml"
    case "mp4" => "video/mp4"
    case "mp3" => "audio/mpeg"
    case _ => OctetStream
  }

  /**
   * GetMimeType: an empty extension is a byte stream; otherwise the
   * extension's leading dots are trimmed and its letters lowered, and an
   * extension the switch does not list is a byte stream too.
   */
  function GetMimeType(extension: string): (r: string)
    ensures extension == [] ==> r == OctetStream
  {
    if extension == [] then OctetStream else Lookup(ToLower(TrimDots(extension)))
  }

  lemma LowerUpperChar(c: char)
    ensures LowerChar(UpperChar(c)) == LowerChar(c)
  {
  }

  /** The lookup ignores the case of the extension. */
  lemma MimeIgnoresCase(extension: string)
    ensures GetMimeType(ToUpper(extension)) == GetMimeType(extension)
  {
    TrimDotsUpper(extension);
    LowerOfUpper(TrimDots(extension));
  }

  /** Lowering a raised text gives the lowered text. */
  lemma LowerOfUpper(b: string)
    ensures ToLower(ToUpper(b)) == ToLower(b)
  {
    var x, y := ToLower(ToUpper(b)), ToLower(b);
    forall i | 0 <= i < |b| ensures x[i] == y[i] {
      LowerUpperChar(b[i]);
    }
  }

  /** Trimming dots commutes with raising the case, since '.' has no case. */
  lemma {:induction false} TrimDotsUpper(s: string)
    ensures TrimDots(ToUpper(s)) == ToUpper(TrimDots(s))
    decreases |s|
  {
    if s != [] {
      var u := ToUpper(s);
      assert UpperChar(s[0]) == '.' <==> s[0] == '.';
      if s[0] == '.' {
        assert u[1..] == ToUpper(s[1..]);
        TrimDotsUpper(s[1..]);
      }
    }
  }

  /** Leading dots do not matter: ".jpg", "jpg" and "..jpg" give the same type. */
  lemma MimeIgnoresLeadingDot(extension: string)
    ensures GetMimeType("." + extension) == GetMimeType(extension)
  {
    assert TrimDots("." + extension) == TrimDots(extension) by {
      assert ("." + extension)[1..] == extension;
    }
    if extension == [] {
      assert ToLower([]) == [];
    }
  }

  /** "jpg" and ".JPEG" are the same type, and an extension the switch does not list is a byte stream. */
  lemma JpegAliases()
    ensures GetMimeType("jpg") == GetMimeType(".JPEG") == "image/jpeg"
    ensures GetMimeType("exe") == OctetStream
  {
    JpgType();
    JpegType();
    ExeType();
  }

  lemma JpgType()
    ensures GetMimeType("jpg") == "image/jpeg"
  {
    JpgKey();
  }

  lemma JpegType()
    ensures GetMimeType(".JPEG") == "image/jpeg"
  {
    JpegKey();
  }

  lemma ExeType()
    ensures GetMimeType("exe") == OctetStream
  {
    ExeKey();
  }

  lemma JpgKey()
    ensures ToLower(TrimDots("jpg")) == "jpg"
  {
    assert TrimDots("jpg") == "jpg";
  }

  lemma JpegKey()
    ensures ToLower(TrimDots(".JPEG")) == "jpeg"
  {
    assert ".JPEG"[1..] == "JPEG";
    assert TrimDots("JPEG") == "JPEG";
  }

  lemma ExeKey()
    ensures ToLower(TrimDots("exe")) == "exe"
  {
    assert TrimDots("exe") == "exe";
  }

  // ---------------------------------------------------------------- metadata and guards

  datatype Metadata = Metadata(size: nat, contentType: string)

  /** GetFileMetadataAsync without the optional hash: the path check, then the file's length and type. */
  function GetFileMetadata(svc: Service, host: Host, path: string): (r: Result<Metadata, FsError>)
    ensures r.Ok? <==> ResolveAndValidatePath(svc, host, path).Ok? && ResolveAndValidatePath(svc, host, path).value in host.files
    ensures r.Ok? ==> var full := ResolveAndValidatePath(svc, host, path).value;
      r.value == Metadata(|host.files[full]|, GetMimeType(Extension(full)))
  {
    match ResolveAndValidatePath(svc, host, path)
    case Err(e) => Err(e)
    case Ok(full) =>
      if full !in host.files then Err(FileNotFound(full))
      else Ok(Metadata(|host.files[full]|, GetMimeType(Extension(full))))
  }

  /**
   * GetFileStreamAsync: the checks made before a stream is opened; the
   * result names the file the stream reads.
   */
  function GetFileStream(svc: Service, host: Host, path: string): (r: Result<string, FsError>)
    ensures r.Ok? ==> (r == ResolveAndValidatePath(svc, host, path) && r.value in host.files
      && |host.files[r.value]| <= svc.maxStreamBytes)
    ensures r == Err(TooLarge) <==> (ResolveAndValidatePath(svc, host, path).Ok?
      && ResolveAndValidatePath(svc, host, path).value in host.files
      && |host.files[ResolveAndValidatePath(svc, host, path).value]| > svc.maxStreamBytes)
  {
    match ResolveAndValidatePath(svc, host, path)
    case Err(e) => Err(e)
    case Ok(full) =>
      if full !in host.files then Err(FileNotFound(full))
      else if |host.files[full]| > svc.maxStreamBytes then Err(TooLarge)
      else Ok(full)
  }

  /** A missing file is refused before its length is looked at. */
  lemma StreamGuards(svc: Service, host: Host, path: string)
    requires ResolveAndValidatePath(svc, host, path).Ok?
    ensures var full := ResolveAndValidatePath(svc, host, path).value;
      (full !in host.files ==> GetFileStream(svc, host, path) == Err(FileNotFound(full)))
      && (full in host.files && |host.files[full]| > svc.maxStreamBytes ==> GetFileStream(svc, host, path) == Err(TooLarge))
  {
  }

  /**
   * GetFileBytesAsync: the path check still throws, but a missing file or
   * one longer than maxBytes gives null rather than an exception.
   */
  function GetFileBytes(svc: Service, host: Host, path: string, maxBytes: Option<int>): (r: Result<Option<seq<byte>>, FsError>)
    ensures r.Err? <==> ResolveAndValidatePath(svc, host, path).Err?
    ensures r.Err? ==> r.error == ResolveAndValidatePath(svc, host, path).error
    ensures r.Ok? ==> var full := ResolveAndValidatePath(svc, host, path).value;
      (r.value.None? <==> full !in host.files || (maxBytes.Some? && |host.files[full]| > maxBytes.value))
      && (r.value.Some? ==> full in host.files && r.value.value == host.files[full])
  {
    match ResolveAndValidatePath(svc, host, path)
    case Err(e) => Err(e)
    case Ok(full) =>
      if full !in host.files then Ok(None)
      else if maxBytes.Some? && |host.files[full]| > maxBytes.value then Ok(None)
      else Ok(Some(host.files[full]))
  }

  /**
   * With the streaming ceiling as its limit, GetFileBytes gives the bytes
   * exactly when GetFileStream opens the file, null exactly where the stream
   * throws FileNotFound or TooLarge, and the same path errors otherwise.
   */
  lemma BytesAgreeWithStream(svc: Service, host: Host, path: string)
    ensures var b, st := GetFileBytes(svc, host, path, Some(svc.maxStreamBytes)), GetFileStream(svc, host, path);
      (b.Ok? && b.value.Some? <==> st.Ok?)
      && (st.Ok? ==> b.value.value == host.files[st.value])
      && (b == Ok(None) <==> st.Err? && (st.error.FileNotFound? || st.error.TooLarge?))
      && (b.Err? ==> st.Err? && b.error == st.error)
  {
    var b, st := GetFileBytes(svc, host, path, Some(svc.maxStreamBytes)), GetFileStream(svc, host, path);
    if ResolveAndValidatePath(svc, host, path).Err? {
      assert !(st.error.FileNotFound? || st.error.TooLarge?);
    }
  }

  // ---------------------------------------------------------------- listings

  function DirEntry(d: DirInfo): FileEntry {
    FileEntry(d.name, d.fullName, true, 0, d.lastWrite)
  }

  function FileEntryOf(f: FileInfo): FileEntry {
    FileEntry(f.name, f.fullName, false, f.length, f.lastWrite)
  }

  function DirEntries(ds: seq<DirInfo>): (r: seq<FileEntry>)
    ensures |r| == |ds| && forall k :: 0 <= k < |ds| ==> r[k] == DirEntry(ds[k])
  {
    seq(|ds|, i requires 0 <= i < |ds| => DirEntry(ds[i]))
  }

  function FileEntries(fs: seq<FileInfo>): (r: seq<FileEntry>)
    ensures |r| == |fs| && forall k :: 0 <= k < |fs| ==> r[k] == FileEntryOf(fs[k])
  {
    seq(|fs|, i requires 0 <= i < |fs| => FileEntryOf(fs[i]))
  }

  /** The entries in enumeration order: the directories, then the files. */
  function Entries(l: Listing): (r: seq<FileEntry>)
    ensures |r| == |l.dirs| + |l.files|
  {
    DirEntries(l.dirs) + FileEntries(l.files)
  }

  /** The two enumeration loops: one entry added per directory, then one per file. */
  method CollectEntries(l: Listing) returns (entries: seq<FileEntry>)
    ensures entries == Entries(l)
  {
    entries := [];
    var i := 0;
    while i < |l.dirs|
      invariant 0 <= i <= |l.dirs|
      invariant entries == DirEntries(l.dirs[..i])
    {
      assert DirEntries(l.dirs[..i + 1]) == DirEntries(l.dirs[..i]) + [DirEntry(l.dirs[i])];
      entries := entries + [DirEntry(l.dirs[i])];
      i := i + 1;
    }
    assert l.dirs[..i] == l.dirs;
    var j := 0;
    while j < |l.files|
      invariant 0 <= j <= |l.files|
      invariant entries == DirEntries(l.dirs) + FileEntries(l.files[..j])
    {
      assert FileEntries(l.files[..j + 1]) == FileEntries(l.files[..j]) + [FileEntryOf(l.files[j])];
      entries := entries + [FileEntryOf(l.files[j])];
      j := j + 1;
    }
    assert l.files[..j] == l.files;
  }

  /**
   * ListDirectoryEntriesAsync: the resolved directory must exist; its
   * entries are collected and ordered directories first, then by name.  The
   * search pattern and the recursive flag only select what the enumeration
   * yields, which is an input here.
   */
  method ListDirectoryEntries(svc: Service, host: Host, path: string, before: (string, string) -> bool)
    returns (r: Result<seq<FileEntry>, FsError>)
    ensures r == ListingOf(svc, host, path, before)
  {
    var resolved := ResolveAndValidatePath(svc, host, path);
    if resolved.Err? {
      return Err(resolved.error);
    }
    var full := resolved.value;
    if full !in host.directories {
      return Err(DirectoryNotFound(full));
    }
    var entries := CollectEntries(host.directories[full]);
    r := Ok(Ordering.SortEntries(before, entries));
  }

  /** The ordered listing of a path, or the exception that listing it throws. */
  function ListingOf(svc: Service, host: Host, path: string, before: (string, string) -> bool): Result<seq<FileEntry>, FsError> {
    match ResolveAndValidatePath(svc, host, path)
    case Err(e) => Err(e)
    case Ok(full) =>
      if full !in host.directories then Err(DirectoryNotFound(full))
      else Ok(Ordering.SortEntries(before, Entries(host.directories[full])))
  }

  /**
   * A directory that does not exist throws DirectoryNotFoundException;
   * otherwise the listing holds exactly the enumerated entries, every
   * directory before every file and each group in name order.
   */
  lemma ListingOrder(svc: Service, host: Host, path: string, before: (string, string) -> bool)
    requires ResolveAndValidatePath(svc, host, path).Ok?
    ensures var full := ResolveAndValidatePath(svc, host, path).value;
      var r := ListingOf(svc, host, path, before);
      (full !in host.directories ==> r == Err(DirectoryNotFound(full)))
      && (full in host.directories ==> r.Ok? && multiset(r.value) == multiset(Entries(host.directories[full])))
      && (full in host.directories && Ordering.IsNameOrder(before) ==>
            forall i, j :: 0 <= i < |r.value| && 0 <= j < |r.value| && r.value[i].isDirectory && !r.value[j].isDirectory ==> i < j)
  {
    var full := ResolveAndValidatePath(svc, host, path).value;
    var r := ListingOf(svc, host, path, before);
    if full in host.directories && Ordering.IsNameOrder(before) {
      forall i, j | 0 <= i < |r.value| && 0 <= j < |r.value| && r.value[i].isDirectory && !r.value[j].isDirectory
        ensures i < j
      {
        Ordering.DirectoriesFirst(before, r.value, i, j);
      }
    }
  }

  /** ListDirectoryAsync: the ordered entries wrapped in a file_list message for the requested path. */
  method ListDirectory(svc: Service, host: Host, path: string, before: (string, string) -> bool)
    returns (r: Result<Message, FsError>)
    ensures r.Err? <==> ListingOf(svc, host, path, before).Err?
    ensures r.Err? ==> r.error == ListingOf(svc, host, path, before).error
    ensures r.Ok? ==> r.value == FileList(path, ListingOf(svc, host, path, before).value)
  {
    var entries := ListDirectoryEntries(svc, host, path, before);
    if entries.Err? {
      return Err(entries.error);
    }
    r := Ok(FileList(path, entries.value));
  }

  /** A page of a listing. */
  datatype PagedResult = PagedResult(items: seq<FileEntry>, offset: int, limit: int, total: nat)

  function Max0(x: int): nat { if x < 0 then 0 else x }

  /** Skip(offset).Take(limit): a negative count skips or takes nothing. */
  function Page(all: seq<FileEntry>, offset: int, limit: int): (r: PagedResult)
    ensures r.total == |all| && r.offset == offset && r.limit == limit
    ensures |r.items| <= Max0(limit)
    ensures forall k :: 0 <= k < |r.items| ==> Max0(offset) + k < |all| && r.items[k] == all[Max0(offset) + k]
    ensures |r.items| == Min(Max0(limit), |all| - Min(Max0(offset), |all|))
  {
    var from := if Max0(offset) < |all| then Max0(offset) else |all|;
    var to := if from + Max0(limit) < |all| then from + Max0(limit) else |all|;
    PagedResult(all[from..to], offset, limit, |all|)
  }

  /** Two adjacent pages together are the page that spans both. */
  lemma PageWindow(all: seq<FileEntry>, offset: nat, a: nat, b: nat)
    ensures Page(all, offset, a).items + Page(all, offset + a, b).items == Page(all, offset, a + b).items
  {
    var p, q, pq := Page(all, offset, a).items, Page(all, offset + a, b).items, Page(all, offset, a + b).items;
    if offset + a >= |all| {
      assert q == [];
      assert p == pq;
    } else {
      assert |p| == a;
      assert |p + q| == |pq|;
      forall k | 0 <= k < |pq| ensures (p + q)[k] == pq[k] {
        if k >= a {
          assert (p + q)[k] == q[k - a];
        }
      }
    }
  }

  /**
   * EnumerateDirectoryPaged: the whole ordered listing is counted and one
   * page of it returned, with the offset and limit echoed as given.
   */
  function EnumerateDirectoryPaged(svc: Service, host: Host, path: string, offset: int, limit: int,
                                   before: (string, string) -> bool): (r: Result<PagedResult, FsError>)
    ensures r.Err? <==> ListingOf(svc, host, path, before).Err?
    ensures r.Err? ==> r.error == ListingOf(svc, host, path, before).error
    ensures r.Ok? ==> var all := ListingOf(svc, host, path, before).value;
      r.value == Page(all, offset, limit)
      && r.value.total == |all| && r.value.offset == offset && r.value.limit == limit
      && |r.value.items| == Min(Max0(limit), |all| - Min(Max0(offset), |all|))
      && (forall k :: 0 <= k < |r.value.items| ==> r.value.items[k] == all[Max0(offset) + k])
      && multiset(r.value.items) <= multiset(all)
  {
    match ListingOf(svc, host, path, before)
    case Err(e) => Err(e)
    case Ok(all) =>
      PageIsSubMultiset(all, offset, limit);
      Ok(Page(all, offset, limit))
  }

  lemma PageIsSubMultiset(all: seq<FileEntry>, offset: int, limit: int)
    ensures multiset(Page(all, offset, limit).items) <= multiset(all)
  {
    var from := if Max0(offset) < |all| then Max0(offset) else |all|;
    var to := if from + Max0(limit) < |all| then from + Max0(limit) else |all|;
    assert all == all[..from] + all[from..to] + all[to..];
  }

  // ---------------------------------------------------------------- download

  function Min(a: int, b: int): int { if a < b then a else b }

  /** What one ReadAsync returns: 0 only at the end, otherwise 1 to min(buffer, remaining) bytes, as granted. */
  function ReadSize(grant: nat -> nat, pos: nat, remaining: nat): (n: nat)
    ensures remaining == 0 <==> n == 0
    ensures n <= remaining && n <= BufferSize
  {
    if remaining == 0 then 0
    else if grant(pos) < 1 then 1
    else Min(grant(pos), Min(BufferSize, remaining))
  }

  /** The successive reads of the stream from position pos to the end. */
  function Reads(data: seq<byte>, pos: nat, grant: nat -> nat): (r: seq<seq<byte>>)
    requires pos <= |data|
    decreases |data| - pos
  {
    if pos == |data| then []
    else
      var n := ReadSize(grant, pos, |data| - pos);
      [data[pos..pos + n]] + Reads(data, pos + n, grant)
  }

  /** The file_chunk messages for a list of reads, numbered from 0. */
  function ChunkMessages(path: string, chunks: seq<seq<byte>>): (r: seq<Message>)
    ensures |r| == |chunks|
  {
    seq(|chunks|, i requires 0 <= i < |chunks| => FileChunk(i, path, Encode(chunks[i])))
  }

  /**
   * The messages DownloadFileAsync sends and the exception, if any, it
   * ends with: nothing when the metadata cannot be read or there is no
   * sender; file_start before the stream is opened, so a file over the
   * ceiling leaves file_start alone; otherwise the chunks and file_end.
   */
  function DownloadSpec(svc: Service, host: Host, path: string, hasSender: bool, grant: nat -> nat): (seq<Message>, Option<FsError>) {
    match GetFileMetadata(svc, host, path)
    case Err(e) => ([], Some(e))
    case Ok(meta) =>
      if !hasSender then ([], None)
      else
        var start := FileStart(path, meta.size, meta.contentType);
        match GetFileStream(svc, host, path)
        case Err(e) => ([start], Some(e))
        case Ok(full) =>
          var chunks := Reads(host.files[full], 0, grant);
          ([start] + ChunkMessages(path, chunks) + [FileEnd(path, |chunks|)], None)
  }

  lemma {:induction false} ReadsStep(data: seq<byte>, pos: nat, grant: nat -> nat)
    requires pos < |data|
    ensures var n := ReadSize(grant, pos, |data| - pos);
      Reads(data, pos, grant) == [data[pos..pos + n]] + Reads(data, pos + n, grant)
  {
  }

  lemma ChunkMessagesAppend(path: string, chunks: seq<seq<byte>>, c: seq<byte>)
    ensures ChunkMessages(path, chunks + [c]) == ChunkMessages(path, chunks) + [FileChunk(|chunks|, path, Encode(c))]
  {
  }

  /** One turn of the read loop keeps `done` followed by the remaining reads equal to all the reads. */
  lemma ReadsAdvance(data: seq<byte>, pos: nat, grant: nat -> nat, done: seq<seq<byte>>, n: nat)
    requires pos < |data| && done + Reads(data, pos, grant) == Reads(data, 0, grant)
    requires n == ReadSize(grant, pos, |data| - pos)
    ensures pos + n <= |data|
    ensures (done + [data[pos..pos + n]]) + Reads(data, pos + n, grant) == Reads(data, 0, grant)
  {
    ReadsStep(data, pos, grant);
    AppendAssoc(done, data[pos..pos + n], Reads(data, pos + n, grant));
  }

  lemma AppendAssoc<T>(a: seq<T>, x: T, r: seq<T>)
    ensures (a + [x]) + r == a + ([x] + r)
  {
  }

  /**
   * The read loop of DownloadFileAsync: one file_chunk per read, with
   * `index` counting from 0 and `totalChunks` counting along with it.
   */
  method SendChunks(path: string, data: seq<byte>, grant: nat -> nat) returns (sent: seq<Message>, totalChunks: nat)
    ensures sent == ChunkMessages(path, Reads(data, 0, grant))
    ensures totalChunks == |Reads(data, 0, grant)|
  {
    sent := [];
    var pos: nat := 0;
    var index := 0;
    totalChunks := 0;
    ghost var done: seq<seq<byte>> := [];
    var read := ReadSize(grant, pos, |data| - pos);
    while read > 0
      invariant pos <= |data| && read == ReadSize(grant, pos, |data| - pos)
      invariant index == totalChunks == |done|
      invariant done + Reads(data, pos, grant) == Reads(data, 0, grant)
      invariant sent == ChunkMessages(path, done)
      decreases |data| - pos
    {
      var bytes := data[pos..pos + read];
      var b64 := Encode(bytes);
      sent := sent + [FileChunk(index, path, b64)];
      ghost var before, at, n := done, pos, read;
      done := done + [bytes];
      index := index + 1;
      totalChunks := totalChunks + 1;
      pos := pos + read;
      read := ReadSize(grant, pos, |data| - pos);
      SendStep(path, data, grant, at, n, before, sent, done, pos);
    }
    assert pos == |data|;
    ReadsDone(data, grant, done);
  }

  /** One turn of the read loop: the read is appended to `done` and its message to the sent list. */
  lemma SendStep(path: string, data: seq<byte>, grant: nat -> nat, pos: nat, read: nat, done: seq<seq<byte>>, sent: seq<Message>,
                  done': seq<seq<byte>>, pos': nat)
    requires pos < |data| && read == ReadSize(grant, pos, |data| - pos)
    requires done + Reads(data, pos, grant) == Reads(data, 0, grant)
    requires sent == ChunkMessages(path, done) + [FileChunk(|done|, path, Encode(data[pos..pos + read]))]
    requires done' == done + [data[pos..pos + read]] && pos' == pos + read
    ensures pos' <= |data|
    ensures done' + Reads(data, pos', grant) == Reads(data, 0, grant)
    ensures sent == ChunkMessages(path, done')
  {
    ReadsAdvance(data, pos, grant, done, read);
    ChunkMessagesAppend(path, done, data[pos..pos + read]);
  }

  /** Once the stream is exhausted the reads so far are all of them. */
  lemma ReadsDone(data: seq<byte>, grant: nat -> nat, done: seq<seq<byte>>)
    requires done + Reads(data, |data|, grant) == Reads(data, 0, grant)
    ensures done == Reads(data, 0, grant)
  {
    assert done + [] == done;
  }

  /** DownloadFileAsync: the metadata, file_start, the stream checks, the chunks and file_end. */
  method DownloadFile(svc: Service, host: Host, path: string, hasSender: bool, grant: nat -> nat)
    returns (sent: seq<Message>, failure: Option<FsError>)
    ensures (sent, failure) == DownloadSpec(svc, host, path, hasSender, grant)
  {
    var meta := GetFileMetadata(svc, host, path);
    if meta.Err? {
      return [], Some(meta.error);
    }
    if !hasSender {
      return [], None;
    }
    var start := FileStart(path, meta.value.size, meta.value.contentType);
    var stream := GetFileStream(svc, host, path);
    if stream.Err? {
      return [start], Some(stream.error);
    }
    var chunks, totalChunks := SendChunks(path, host.files[stream.value], grant);
    sent := [start] + chunks + [FileEnd(path, totalChunks)];
    failure := None;
  }

  // ---------------------------------------------------------------- download properties

  function Concat(chunks: seq<seq<byte>>): seq<byte> {
    if chunks == [] then [] else chunks[0] + Concat(chunks[1..])
  }

  /** The reads partition the rest of the file: together, in order, they are its bytes from pos on. */
  lemma {:induction false} ReadsConcat(data: seq<byte>, pos: nat, grant: nat -> nat)
    requires pos <= |data|
    ensures Concat(Reads(data, pos, grant)) == data[pos..]
    decreases |data| - pos
  {
    if pos < |data| {
      var n := ReadSize(grant, pos, |data| - pos);
      ReadsConcat(data, pos + n, grant);
      assert Reads(data, pos, grant)[1..] == Reads(data, pos + n, grant);
      assert data[pos..] == data[pos..pos + n] + data[pos + n..];
    }
  }

  /** Every read holds 1 to 64 KiB. */
  lemma {:induction false} ReadsBounded(data: seq<byte>, pos: nat, grant: nat -> nat, k: nat)
    requires pos <= |data| && k < |Reads(data, pos, grant)|
    ensures 1 <= |Reads(data, pos, grant)[k]| <= BufferSize
    decreases |data| - pos
  {
    var n := ReadSize(grant, pos, |data| - pos);
    if k > 0 {
      ReadsBounded(data, pos + n, grant, k - 1);
    }
  }

  /** Reads are full when the system always grants the whole buffer. */
  ghost predicate FullReads(grant: nat -> nat) {
    forall p :: grant(p) >= BufferSize
  }

  /** With full reads there are ceil(N / 64 Ki) chunks, and all but the last hold exactly 64 KiB. */
  lemma {:induction false} FullReadsCount(data: seq<byte>, pos: nat, grant: nat -> nat)
    requires pos <= |data| && FullReads(grant)
    ensures |Reads(data, pos, grant)| == (|data| - pos + BufferSize - 1) / BufferSize
    ensures forall k :: 0 <= k < |Reads(data, pos, grant)| - 1 ==> |Reads(data, pos, grant)[k]| == BufferSize
    decreases |data| - pos
  {
    if pos < |data| {
      var n := ReadSize(grant, pos, |data| - pos);
      assert grant(pos) >= BufferSize;
      FullReadsCount(data, pos + n, grant);
      var r := Reads(data, pos, grant);
      assert r[1..] == Reads(data, pos + n, grant);
      if |data| - pos <= BufferSize {
        assert n == |data| - pos;
        assert Reads(data, pos + n, grant) == [];
      } else {
        assert n == BufferSize;
        forall k | 0 <= k < |r| - 1 ensures |r[k]| == BufferSize {
          if k > 0 {
            assert r[k] == Reads(data, pos + n, grant)[k - 1];
          }
        }
      }
    }
  }

  /** The data of the chunk messages, in index order. */
  function ChunkData(msgs: seq<Message>): seq<string>
    requires forall k :: 0 <= k < |msgs| ==> msgs[k].FileChunk?
  {
    seq(|msgs|, k requires 0 <= k < |msgs| => msgs[k].data)
  }

  /** Each chunk decoded on its own, then concatenated (None if any fails). */
  function DecodeEach(texts: seq<string>): Option<seq<byte>> {
    if texts == [] then Some([]) else Join(Decode(texts[0]), DecodeEach(texts[1..]))
  }

  lemma {:induction false} DecodeEachEncoded(chunks: seq<seq<byte>>)
    ensures DecodeEach(seq(|chunks|, i requires 0 <= i < |chunks| => Encode(chunks[i]))) == Some(Concat(chunks))
    decreases |chunks|
  {
    var texts := seq(|chunks|, i requires 0 <= i < |chunks| => Encode(chunks[i]));
    if chunks != [] {
      DecodeEncode(chunks[0]);
      assert texts[1..] == seq(|chunks[1..]|, i requires 0 <= i < |chunks[1..]| => Encode(chunks[1..][i]));
      DecodeEachEncoded(chunks[1..]);
    }
  }

  /** The chunk messages decode, one by one, to the concatenation of the reads. */
  lemma ChunkMessagesDecode(path: string, chunks: seq<seq<byte>>)
    ensures DecodeEach(ChunkData(ChunkMessages(path, chunks))) == Some(Concat(chunks))
  {
    assert ChunkData(ChunkMessages(path, chunks)) == seq(|chunks|, i requires 0 <= i < |chunks| => Encode(chunks[i]));
    DecodeEachEncoded(chunks);
  }

  /** The message list of a completed download, from the file's bytes. */
  function CompletedDownload(path: string, contentType: string, data: seq<byte>, grant: nat -> nat): seq<Message> {
    var chunks := Reads(data, 0, grant);
    [FileStart(path, |data|, contentType)] + ChunkMessages(path, chunks) + [FileEnd(path, |chunks|)]
  }

  /**
   * A completed download is file_start with the file's size, file_chunk
   * with indices 0..n-1, and file_end with totalChunks = n; each chunk
   * carries the base64 of 1 to 64 KiB, and decoding the chunks one by one
   * and concatenating them gives back the file.
   */
  lemma CompletedDownloadShape(path: string, contentType: string, data: seq<byte>, grant: nat -> nat)
    ensures var sent := CompletedDownload(path, contentType, data, grant);
      var n := |sent| - 2;
      n >= 0
      && sent[0] == FileStart(path, |data|, contentType)
      && sent[|sent| - 1] == FileEnd(path, n)
      && (forall k :: 1 <= k <= n ==> sent[k].FileChunk? && sent[k].index == k - 1 && sent[k].path == path)
      && (forall k :: 1 <= k <= n ==> exists c: seq<byte> :: 1 <= |c| <= BufferSize && sent[k].data == Encode(c))
      && DecodeEach(ChunkData(sent[1..n + 1])) == Some(data)
  {
    var chunks := Reads(data, 0, grant);
    var sent := CompletedDownload(path, contentType, data, grant);
    var n := |chunks|;
    var cm := ChunkMessages(path, chunks);
    assert sent[1..n + 1] == cm;
    forall k | 1 <= k <= n ensures exists c: seq<byte> :: 1 <= |c| <= BufferSize && sent[k].data == Encode(c) {
      ReadsBounded(data, 0, grant, k - 1);
      assert sent[k] == cm[k - 1];
    }
    ChunkMessagesDecode(path, chunks);
    ReadsConcat(data, 0, grant);
    assert data[0..] == data;
  }

  /** When the checks pass, DownloadFileAsync sends the completed download of the resolved file. */
  lemma DownloadCompletes(svc: Service, host: Host, path: string, grant: nat -> nat)
    requires GetFileStream(svc, host, path).Ok?
    ensures var full := GetFileStream(svc, host, path).value;
      DownloadSpec(svc, host, path, true, grant) ==
        (CompletedDownload(path, GetMimeType(Extension(full)), host.files[full], grant), None)
  {
  }

  /** An empty file gives file_start and file_end with totalChunks 0, and no chunk. */
  lemma EmptyFileDownload(svc: Service, host: Host, path: string, grant: nat -> nat)
    requires GetFileStream(svc, host, path).Ok? && host.files[GetFileStream(svc, host, path).value] == []
    ensures var (sent, failure) := DownloadSpec(svc, host, path, true, grant);
      failure.None? && |sent| == 2 && sent[0].FileStart? && sent[0].size == 0 && sent[1] == FileEnd(path, 0)
  {
  }

  /**
   * A failed path check or a missing file throws before anything is sent,
   * and so does nothing when there is no sender; a file over the ceiling
   * throws after file_start has gone out.
   */
  lemma DownloadFailures(svc: Service, host: Host, path: string, hasSender: bool, grant: nat -> nat)
    ensures var (sent, failure) := DownloadSpec(svc, host, path, hasSender, grant);
      (GetFileMetadata(svc, host, path).Err? ==> sent == [] && failure == Some(GetFileMetadata(svc, host, path).error))
      && (!hasSender ==> sent == [])
      && (hasSender && GetFileStream(svc, host, path) == Err(TooLarge) ==>
            |sent| == 1 && sent[0].FileStart? && failure == Some(TooLarge))
      && (failure.Some? && |sent| > 0 ==> failure == Some(TooLarge))
  {
  }
}
