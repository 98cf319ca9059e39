/**
 * The webcam recorder and frame batcher
 * (ServerApp/WebSocketTest/Services/WebcamService.cs).  RecordFrames reads
 * up to 5 s x 30 fps = 150 frames from the camera and returns them as
 * base64 JPEG texts, or nothing (null) when the camera does not open, no
 * frame was kept, or the camera failed.  CaptureAndSend then sends
 * video_start with the frame count, the frames in batches of 30 with their
 * indices, and video_end; with no frames it sends one error envelope.
 *
 * The camera is an input: whether it opens, how many loop checks pass
 * before the timeout token is cancelled, and what each read gives.  The
 * sender is the returned message list.
 */
module WebcamService {
  import opened Wrappers
  import opened Protocol
  import JsonResponse

  const BatchSize: nat := 30
  const RecordTimeSec: nat := 5
  const Fps: nat := 30
  /** recordTimeSec * fps: the most frames one recording reads. */
  const TotalFrames: nat := RecordTimeSec * Fps

  const NoFramesMessage: string := "Lỗi: Không thể mở Webcam hoặc không ghi được frame nào."

  // ---------------------------------------------------------------- recording

  /** What one read of the camera gives. */
  datatype Shot =
    | Blank                  // frame.Empty(): the loop stops
    | Encoded(data: string)  // the base64 text of the JPEG-encoded frame
    | EncodeFailed           // ImEncode threw: the frame is skipped
    | Crashed                // the read threw: the whole recording is lost

  /**
   * The camera as the recorder sees it: whether VideoCapture(0) opens, the
   * number of loop checks that see the timeout token not yet cancelled,
   * and the result of the read in each iteration.
   */
  datatype Camera = Camera(opens: bool, checksBeforeTimeout: nat, shot: nat -> Shot)

  /** The number of iterations the loop may run: the frame budget or the timeout, whichever comes first. */
  function Limit(cam: Camera): (r: nat)
    ensures r <= TotalFrames && r <= cam.checksBeforeTimeout
    ensures r == TotalFrames || r == cam.checksBeforeTimeout
  {
    if cam.checksBeforeTimeout < TotalFrames then cam.checksBeforeTimeout else TotalFrames
  }

  /**
   * The frames kept by iterations i, i+1, ... of the recording loop, or
   * None when a read throws first.
   */
  function Kept(cam: Camera, i: nat): (r: Option<seq<string>>)
    requires i <= Limit(cam)
    ensures r.Some? ==> |r.value| <= Limit(cam) - i
    decreases Limit(cam) - i
  {
    if i == Limit(cam) then Some([])
    else
      match cam.shot(i)
      case Blank => Some([])
      case Crashed => None
      case EncodeFailed => Kept(cam, i + 1)
      case Encoded(d) =>
        var rest := Kept(cam, i + 1);
        if rest.None? then None else Some([d] + rest.value)
  }

  /** The result of RecordFrames: null for a closed camera, a failure or no frames. */
  function Recording(cam: Camera): (r: Option<seq<string>>)
    ensures r.Some? ==> 0 < |r.value| <= TotalFrames
    ensures !cam.opens ==> r == None
  {
    if !cam.opens then None
    else
      var kept := Kept(cam, 0);
      if kept.Some? && |kept.value| > 0 then kept else None
  }

  /** Frames already kept, followed by what the remaining iterations keep. */
  function After(kept: seq<string>, rest: Option<seq<string>>): Option<seq<string>> {
    if rest.None? then None else Some(kept + rest.value)
  }

  /** RecordFrames: the capture loop over the camera, returning null rather than an empty list. */
  method RecordFrames(cam: Camera) returns (frames: Option<seq<string>>)
    ensures frames == Recording(cam)
  {
    if !cam.opens {
      return None;
    }
    var kept: seq<string> := [];
    var i := 0;
    assert Kept(cam, 0).Some? ==> [] + Kept(cam, 0).value == Kept(cam, 0).value;
    while i < TotalFrames && i < cam.checksBeforeTimeout
      invariant i <= Limit(cam)
      invariant After(kept, Kept(cam, i)) == Kept(cam, 0)
      decreases TotalFrames - i
    {
      var shot := cam.shot(i);
      if shot.Blank? {
        break;
      }
      if shot.Crashed? {
        return None;
      }
      if shot.Encoded? {
        var rest := Kept(cam, i + 1);
        assert rest.Some? ==> kept + ([shot.data] + rest.value) == (kept + [shot.data]) + rest.value;
        kept := kept + [shot.data];
      }
      i := i + 1;
    }
    assert Kept(cam, i) == Some([]);
    assert kept + [] == kept;
    frames := if |kept| > 0 then Some(kept) else None;
  }

  /** A camera that opens and gives good frames at every read records exactly min(150, checks) frames. */
  lemma {:induction false} SteadyCameraFills(cam: Camera, i: nat)
    requires cam.opens && i <= Limit(cam)
    requires forall j :: i <= j < Limit(cam) ==> cam.shot(j).Encoded?
    ensures Kept(cam, i).Some? && |Kept(cam, i).value| == Limit(cam) - i
    decreases Limit(cam) - i
  {
    if i < Limit(cam) {
      SteadyCameraFills(cam, i + 1);
    }
  }

  // ---------------------------------------------------------------- batching

  /** The batch that starts at frame `start`: frames start .. min(start + 30, count) - 1 with their indices. */
  function BatchAt(frames: seq<string>, start: nat): (r: seq<Frame>)
    requires start < |frames|
    ensures 1 <= |r| <= BatchSize
    ensures |r| == if start + BatchSize < |frames| then BatchSize else |frames| - start
    ensures forall k :: 0 <= k < |r| ==> r[k] == Frame(start + k, frames[start + k])
  {
    var len := if start + BatchSize < |frames| then BatchSize else |frames| - start;
    seq(len, k requires 0 <= k < len => Frame(start + k, frames[start + k]))
  }

  /** The video_batch messages of the batches starting at `start`, `start + 30`, ... */
  function Batches(frames: seq<string>, start: nat): seq<Message>
    decreases |frames| - start
  {
    if start >= |frames| then []
    else [VideoBatch(BatchAt(frames, start))] + Batches(frames, start + BatchSize)
  }

  /** Everything CaptureAndSend sends for a recording result. */
  function Transmission(recorded: Option<seq<string>>): seq<Message> {
    if recorded.None? || |recorded.value| == 0 then [Reply(Envelope(JsonResponse.Failed, NoFramesMessage))]
    else [VideoStart(|recorded.value|)] + Batches(recorded.value, 0) + [VideoEnd]
  }

  /** CaptureAndSend: record, then send the start, the batches and the end, or one error. */
  method CaptureAndSend(cam: Camera) returns (sent: seq<Message>)
    ensures sent == Transmission(Recording(cam))
  {
    var recorded := RecordFrames(cam);
    if recorded.None? || |recorded.value| == 0 {
      sent := [Reply(Envelope(JsonResponse.Failed, NoFramesMessage))];
      return;
    }
    var frames := recorded.value;
    sent := [VideoStart(|frames|)];
    var batchStart := 0;
    while batchStart < |frames|
      invariant sent + Batches(frames, batchStart) == [VideoStart(|frames|)] + Batches(frames, 0)
      decreases |frames| - batchStart
    {
      var batchEnd := if batchStart + BatchSize < |frames| then batchStart + BatchSize else |frames|;
      var batch: seq<Frame> := [];
      var i := batchStart;
      while i < batchEnd
        invariant batchStart <= i <= batchEnd
        invariant |batch| == i - batchStart
        invariant forall k :: 0 <= k < |batch| ==> batch[k] == Frame(batchStart + k, frames[batchStart + k])
      {
        batch := batch + [Frame(i, frames[i])];
        i := i + 1;
      }
      assert batch == BatchAt(frames, batchStart);
      assert sent + Batches(frames, batchStart) == (sent + [VideoBatch(batch)]) + Batches(frames, batchStart + BatchSize);
      sent := sent + [VideoBatch(batch)];
      batchStart := batchStart + BatchSize;
    }
    assert Batches(frames, batchStart) == [];
    assert sent + [] == sent;
    sent := sent + [VideoEnd];
  }

  // ---------------------------------------------------------------- properties

  /** The frames carried by a message list, in order: those of its video_batch messages. */
  function FramesOf(msgs: seq<Message>): seq<Frame> {
    if msgs == [] then []
    else (if msgs[0].VideoBatch? then msgs[0].frames else []) + FramesOf(msgs[1..])
  }

  /** The number of batches, ceil((count - start) / 30). */
  function BatchCount(count: nat, start: nat): nat {
    if start >= count then 0 else (count - start + BatchSize - 1) / BatchSize
  }

  /**
   * The batches from `start` on are video_batch messages, BatchCount of
   * them, the k-th starting at frame start + 30k.
   */
  lemma {:induction false} BatchesShape(frames: seq<string>, start: nat)
    ensures |Batches(frames, start)| == BatchCount(|frames|, start)
    ensures forall k :: 0 <= k < |Batches(frames, start)| ==>
      start + k * BatchSize < |frames| && Batches(frames, start)[k] == VideoBatch(BatchAt(frames, start + k * BatchSize))
    decreases |frames| - start
  {
    if start < |frames| {
      var b := Batches(frames, start);
      var rest := Batches(frames, start + BatchSize);
      BatchesShape(frames, start + BatchSize);
      BatchCountStep(|frames|, start);
      assert b == [VideoBatch(BatchAt(frames, start))] + rest;
      forall k | 1 <= k < |b|
        ensures start + k * BatchSize < |frames| && b[k] == VideoBatch(BatchAt(frames, start + k * BatchSize))
      {
        ShiftedBatch(frames, start, b, rest, k);
      }
    }
  }

  /** The k-th batch from `start` is the (k-1)-th from the next batch start. */
  lemma ShiftedBatch(frames: seq<string>, start: nat, b: seq<Message>, rest: seq<Message>, k: nat)
    requires start < |frames| && b == [VideoBatch(BatchAt(frames, start))] + rest && 1 <= k < |b|
    requires start + BatchSize + (k - 1) * BatchSize < |frames|
    requires rest[k - 1] == VideoBatch(BatchAt(frames, start + BatchSize + (k - 1) * BatchSize))
    ensures start + k * BatchSize < |frames| && b[k] == VideoBatch(BatchAt(frames, start + k * BatchSize))
  {
    NextBatchStart(start, k);
  }

  /** Counting from one batch further on leaves one batch fewer. */
  lemma BatchCountStep(count: nat, start: nat)
    requires start < count
    ensures BatchCount(count, start) == 1 + BatchCount(count, start + BatchSize)
  {
  }

  lemma NextBatchStart(start: nat, k: nat)
    requires k >= 1
    ensures start + BatchSize + (k - 1) * BatchSize == start + k * BatchSize
  {
  }

  /** The frames from `start` on, each paired with its own index. */
  function Numbered(frames: seq<string>, start: nat): (r: seq<Frame>)
    requires start <= |frames|
    ensures |r| == |frames| - start && forall k :: 0 <= k < |r| ==> r[k] == Frame(start + k, frames[start + k])
  {
    seq(|frames| - start, k requires 0 <= k < |frames| - start => Frame(start + k, frames[start + k]))
  }

  /**
   * Every index from `start` on appears in exactly one batch, in increasing
   * order, paired with its own frame.
   */
  lemma {:induction false} BatchesCarryEveryFrame(frames: seq<string>, start: nat)
    requires start <= |frames|
    ensures FramesOf(Batches(frames, start)) == Numbered(frames, start)
    decreases |frames| - start
  {
    var want := Numbered(frames, start);
    if start < |frames| {
      var batch := BatchAt(frames, start);
      var b := Batches(frames, start);
      assert b[1..] == Batches(frames, start + BatchSize);
      if start + BatchSize < |frames| {
        BatchesCarryEveryFrame(frames, start + BatchSize);
        assert want == batch + FramesOf(b[1..]);
      } else {
        assert Batches(frames, start + BatchSize) == [];
        assert want == batch + FramesOf(b[1..]);
      }
    }
  }

  /**
   * A recording of n frames is sent as video_start{count = n}, then
   * ceil(n / 30) batches of 1..30 frames holding indices 0 .. n-1 in order,
   * then video_end: 2 + ceil(n / 30) messages in all.
   */
  lemma Recorded(frames: seq<string>)
    requires |frames| > 0
    ensures var sent := Transmission(Some(frames));
      && |sent| == 2 + (|frames| + BatchSize - 1) / BatchSize
      && sent[0] == VideoStart(|frames|)
      && sent[|sent| - 1] == VideoEnd
      && (forall k :: 1 <= k < |sent| - 1 ==> sent[k].VideoBatch? && 1 <= |sent[k].frames| <= BatchSize)
      && FramesOf(sent) == Numbered(frames, 0)
  {
    var b := Batches(frames, 0);
    BatchesShape(frames, 0);
    BatchesCarryEveryFrame(frames, 0);
    assert forall k :: 0 <= k < |b| ==> b[k].VideoBatch? && 1 <= |b[k].frames| <= BatchSize;
    Bracketed(|frames|, b);
  }

  /** video_start and video_end around a run of batches add no frame and no batch. */
  lemma Bracketed(n: nat, b: seq<Message>)
    requires forall k :: 0 <= k < |b| ==> b[k].VideoBatch? && 1 <= |b[k].frames| <= BatchSize
    ensures var sent := [VideoStart(n)] + b + [VideoEnd];
      && |sent| == 2 + |b|
      && sent[0] == VideoStart(n)
      && sent[|sent| - 1] == VideoEnd
      && (forall k :: 1 <= k < |sent| - 1 ==> sent[k].VideoBatch? && 1 <= |sent[k].frames| <= BatchSize)
      && FramesOf(sent) == FramesOf(b)
  {
    var sent := [VideoStart(n)] + b + [VideoEnd];
    forall k | 1 <= k < |sent| - 1
      ensures sent[k].VideoBatch? && 1 <= |sent[k].frames| <= BatchSize
    {
      assert sent[k] == b[k - 1];
    }
    FramesOfAppend([VideoStart(n)], b + [VideoEnd]);
    FramesOfAppend(b, [VideoEnd]);
    assert sent == [VideoStart(n)] + (b + [VideoEnd]);
    assert FramesOf([VideoEnd]) == [];
    assert FramesOf([VideoStart(n)]) == [];
    assert FramesOf(b) + [] == FramesOf(b);
  }

  /** The frames of two message lists in a row are those of each, in order. */
  lemma {:induction false} FramesOfAppend(a: seq<Message>, b: seq<Message>)
    ensures FramesOf(a + b) == FramesOf(a) + FramesOf(b)
  {
    if a == [] {
      assert a + b == b;
    } else {
      assert (a + b)[1..] == a[1..] + b;
      FramesOfAppend(a[1..], b);
    }
  }

  /** No recording, or an empty one, sends a single error envelope and no video_start. */
  lemma NothingRecorded(recorded: Option<seq<string>>)
    requires recorded.None? || recorded.value == []
    ensures |Transmission(recorded)| == 1
    ensures forall k :: 0 <= k < |Transmission(recorded)| ==> !Transmission(recorded)[k].VideoStart?
    ensures Transmission(recorded)[0].Reply? && Transmission(recorded)[0].answer.Envelope?
    ensures Transmission(recorded)[0].answer.status == JsonResponse.Failed
  {
  }

  /** A camera that does not open, or whose first read is blank, sends the error and nothing else. */
  lemma FailedCameraSendsError(cam: Camera)
    requires !cam.opens || (0 < Limit(cam) && cam.shot(0).Blank?)
    ensures Transmission(Recording(cam)) == [Reply(Envelope(JsonResponse.Failed, NoFramesMessage))]
  {
  }
}
