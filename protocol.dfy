/**
 * The messages that travel from the server to the browser client over the
 * WebSocket.  The server serialises each one as a JSON object whose `type`
 * field names the kind; here each kind is a constructor.  Ready-made JSON
 * replies (the status envelopes, "PONG", echoed command text) travel as
 * `Reply`, whose text is given by `Wire`.
 */
module Protocol {
  import opened Wrappers
  import JsonResponse

  /**
   * A ready-made reply: one of the JsonResponse envelopes with its status
   * and unescaped message, or a text sent as it is.
   */
  datatype Answer = Envelope(status: JsonResponse.Status, message: string) | Plain(text: string)

  /** The text an answer is sent as. */
  function Wire(a: Answer): string {
    match a
    case Envelope(st, m) =>
      (match st
       case Succeeded => JsonResponse.Success(m)
       case Failed => JsonResponse.Error(m)
       case Informed => JsonResponse.Info(m))
    case Plain(t) => t
  }

  /** An envelope is read back with its own status and message when the message has no control character but the line feed. */
  lemma WireEnvelope(st: JsonResponse.Status, m: string)
    ensures JsonResponse.ParseReply(Wire(Envelope(st, m))) == if JsonResponse.Printable(m) then Some((st, m)) else None
  {
    JsonResponse.EnvelopesParse(m);
  }

  /** One entry of a directory listing (FileEntry of the server). */
  datatype FileEntry = FileEntry(name: string, fullPath: string, isDirectory: bool, size: nat, lastModified: int)

  /** One recorded webcam frame inside a video batch: its position and its base64 JPEG text. */
  datatype Frame = Frame(index: nat, data: string)

  datatype Message =
    | FileList(path: string, items: seq<FileEntry>)
    | FileStart(path: string, size: nat, contentType: string)
    | FileChunk(index: nat, path: string, data: string)
    | FileEnd(path: string, totalChunks: nat)
    | VideoStart(count: nat)
    | VideoBatch(frames: seq<Frame>)
    | VideoEnd
    | Reply(answer: Answer)

  /** The value of the `type` field the client dispatches on; replies carry none. */
  function TypeName(m: Message): Option<string> {
    match m
    case FileList(_, _) => Some("file_list")
    case FileStart(_, _, _) => Some("file_start")
    case FileChunk(_, _, _) => Some("file_chunk")
    case FileEnd(_, _) => Some("file_end")
    case VideoStart(_) => Some("video_start")
    case VideoBatch(_) => Some("video_batch")
    case VideoEnd => Some("video_end")
    case Reply(_) => None
  }
}
