/**
 * The browser's webcam player (ClientApp/static/js/features/webcam.js):
 * the frames of a recording arrive as video_start, video_batch and
 * video_end messages and are then played back at a fixed rate.  The state
 * is the list of base64 frames, the index of the frame on screen, whether
 * playback is running, the seeker's maximum, the frame shown and whether
 * the replay overlay is up.  The repeating timer is the explicit method
 * Tick, which can only fire while playback runs (play starts the timer,
 * pause clears it).  The DOM, the log and the frame counter text are not
 * part of the state.
 */
module WebcamClient {
  import opened Wrappers
  import opened Protocol
  import WebcamService

  /** Everything the player keeps between events. */
  datatype Player = Player(
    frames: seq<string>,
    index: int,               // currentFrameIdx
    playing: bool,            // isPlaying, and the timer running
    seekerMax: int,
    screen: Option<string>,   // the frame the screen shows
    replay: bool)             // the replay overlay is displayed

  /** The player as the constructor leaves it. */
  const Idle: Player := Player([], 0, false, 0, None, false)

  /** The base64 texts of the frames, in arrival order. */
  function Datas(fs: seq<Frame>): (r: seq<string>)
    ensures |r| == |fs| && forall i :: 0 <= i < |fs| ==> r[i] == fs[i].data
  {
    seq(|fs|, i requires 0 <= i < |fs| => fs[i].data)
  }

  // ---------------------------------------------------------------- the player's operations

  /** showFrame: no frames or an index out of range changes nothing; otherwise that frame is shown. */
  function Showing(p: Player, i: int): Player {
    if |p.frames| == 0 || i < 0 || i >= |p.frames| then p
    else p.(screen := Some(p.frames[i]), index := i)
  }

  /** play: nothing if already playing; otherwise start, rewinding when at or past the last frame. */
  function Playing(p: Player): Player {
    if p.playing then p
    else p.(playing := true, replay := false, index := if p.index >= |p.frames| - 1 then 0 else p.index)
  }

  /** pause: stop the timer. */
  function Paused(p: Player): Player {
    p.(playing := false)
  }

  /** One timer tick: the next frame, or, past the last one, a pause with the replay overlay. */
  function Ticked(p: Player): Player
    requires p.playing
  {
    var q := p.(index := p.index + 1);
    if q.index >= |q.frames| then Paused(q).(replay := true) else Showing(q, q.index)
  }

  /** The seeker's input handler: pause, then show the chosen frame. */
  function Sought(p: Player, value: int): Player {
    Showing(Paused(p), value)
  }

  /** loadPlayer: back to the first frame, the seeker sized to the frames, and play. */
  function Loaded(p: Player): Player {
    Playing(Showing(p.(index := 0, seekerMax := |p.frames| - 1), 0))
  }

  /** video_start: the frames so far are dropped. */
  function VideoStarted(p: Player): Player {
    p.(frames := [], index := 0)
  }

  /** video_batch: each frame's text is appended in arrival order, its index ignored. */
  function VideoBatched(p: Player, batch: seq<Frame>): Player {
    if |batch| > 0 then p.(frames := p.frames + Datas(batch)) else p
  }

  /** video_end: the player is loaded if any frame arrived. */
  function VideoEnded(p: Player): Player {
    if |p.frames| > 0 then Loaded(p) else p
  }

  /** The handlers registered for the three video messages; other messages leave the player alone. */
  function Receive(p: Player, m: Message): Player {
    match m
    case VideoStart(_) => VideoStarted(p)
    case VideoBatch(batch) => VideoBatched(p, batch)
    case VideoEnd => VideoEnded(p)
    case _ => p
  }

  /** The player after a list of messages, in order. */
  function Deliver(p: Player, msgs: seq<Message>): Player {
    if msgs == [] then p
    else Receive(Deliver(p, msgs[..|msgs| - 1]), msgs[|msgs| - 1])
  }

  /** k timer ticks; a stopped timer fires no more. */
  function Ticks(p: Player, k: nat): Player
    decreases k
  {
    if k == 0 || !p.playing then p else Ticks(Ticked(p), k - 1)
  }

  // ---------------------------------------------------------------- the playback invariant

  /**
   * The index is never negative; it is at most the frame count except just
   * after a tick over no frames (play pressed with nothing loaded), which
   * pauses at 1; while playing it names a frame, or is 0 with no frames.
   */
  predicate Valid(p: Player) {
    && 0 <= p.index
    && (p.index <= |p.frames| || (p.index == 1 && p.frames == [] && !p.playing))
    && (p.playing ==> p.index < |p.frames| || (p.frames == [] && p.index == 0))
  }

  /** Every event and every user action keeps the invariant. */
  lemma ValidKept(p: Player)
    requires Valid(p)
    ensures Valid(Playing(p)) && Valid(Paused(p)) && (p.playing ==> Valid(Ticked(p)))
    ensures Valid(Loaded(p)) && Valid(VideoStarted(p)) && Valid(VideoEnded(p))
    ensures forall i :: Valid(Showing(p, i)) && Valid(Sought(p, i))
    ensures forall batch :: Valid(VideoBatched(p, batch))
  {
    ShowingValid(Paused(p));
    ShowingValid(p);
    var l := p.(index := 0, seekerMax := |p.frames| - 1);
    ShowingValid(l);
  }

  lemma ShowingValid(p: Player)
    requires Valid(p)
    ensures forall i :: Valid(Showing(p, i))
  {
  }

  /** The constructor's player satisfies the invariant. */
  lemma IdleValid()
    ensures Valid(Idle)
  {
  }

  /**
   * The bound 0 <= index <= frame count does not hold in every state: play
   * with no frames, then one tick, pauses at index 1 over no frames.
   */
  lemma PlayWithoutFramesOvershoots()
    ensures var q := Ticked(Playing(Idle));
      q.index == 1 && q.frames == [] && !q.playing && q.replay
  {
  }

  // ---------------------------------------------------------------- playback

  /**
   * While frames remain, each tick shows the next one: k ticks from index
   * i, with i + k still a frame, show frame i + k and keep playing.
   */
  lemma {:induction false} TicksAdvance(p: Player, k: nat)
    requires p.playing && 0 <= p.index && p.index + k < |p.frames|
    decreases k
    ensures var q := Ticks(p, k);
      q.playing && q.index == p.index + k && q.frames == p.frames && q.seekerMax == p.seekerMax
      && (k > 0 ==> q.screen == Some(p.frames[p.index + k]))
  {
    if k > 0 {
      TicksAdvance(Ticked(p), k - 1);
    }
  }

  /**
   * From frame i of n, n - 1 - i ticks reach the last frame and one more
   * stops playback at index n with the replay overlay up.
   */
  lemma PlaysToTheEnd(p: Player)
    requires p.playing && 0 <= p.index < |p.frames|
    ensures var last := |p.frames| - 1 - p.index;
      var q := Ticks(p, last);
      q.playing && q.index == |p.frames| - 1
      && var r := Ticks(p, last + 1);
      !r.playing && r.replay && r.index == |p.frames| && r.frames == p.frames
  {
    var last := |p.frames| - 1 - p.index;
    TicksAdvance(p, last);
    TicksSplit(p, last);
  }

  /** One more tick after k ticks that kept playing. */
  lemma {:induction false} TicksSplit(p: Player, k: nat)
    requires Ticks(p, k).playing
    ensures Ticks(p, k + 1) == Ticked(Ticks(p, k))
    decreases k
  {
    if k > 0 && p.playing {
      TicksSplit(Ticked(p), k - 1);
    }
  }

  /** The seeker always pauses, and shows the chosen frame when there is one. */
  lemma SeekPauses(p: Player, value: int)
    ensures var q := Sought(p, value);
      !q.playing && q.frames == p.frames
      && (0 <= value < |p.frames| ==> q.index == value && q.screen == Some(p.frames[value]))
      && (!(0 <= value < |p.frames|) ==> q.index == p.index && q.screen == p.screen)
  {
  }

  /** Pressing play twice is pressing it once. */
  lemma PlayIdempotent(p: Player)
    ensures Playing(Playing(p)) == Playing(p)
  {
  }

  // ---------------------------------------------------------------- receiving a recording

  /** Batches append the texts of all their frames, and change nothing else. */
  lemma {:induction false} BatchesAppend(p: Player, msgs: seq<Message>)
    requires forall k :: 0 <= k < |msgs| ==> msgs[k].VideoBatch?
    ensures Deliver(p, msgs) == p.(frames := p.frames + Datas(WebcamService.FramesOf(msgs)))
  {
    if msgs == [] {
      assert p.frames + [] == p.frames;
    } else {
      var front, last := msgs[..|msgs| - 1], msgs[|msgs| - 1];
      BatchesAppend(p, front);
      LastBatch(p, msgs);
      FramesOfSnoc(front, last);
      assert msgs == front + [last];
      BatchStep(p, WebcamService.FramesOf(front), last.frames);
    }
  }

  /** The last message of a list, a batch, is received after the others. */
  lemma LastBatch(p: Player, msgs: seq<Message>)
    requires msgs != [] && msgs[|msgs| - 1].VideoBatch?
    ensures Deliver(p, msgs) == VideoBatched(Deliver(p, msgs[..|msgs| - 1]), msgs[|msgs| - 1].frames)
  {
  }

  /** One more batch's frames after the frames of a message list. */
  lemma FramesOfSnoc(front: seq<Message>, last: Message)
    requires last.VideoBatch?
    ensures WebcamService.FramesOf(front + [last]) == WebcamService.FramesOf(front) + last.frames
  {
    WebcamService.FramesOfAppend(front, [last]);
    assert [last][1..] == [];
    assert WebcamService.FramesOf([last]) == last.frames + [];
  }

  /** A batch received after the frames f appends its own. */
  lemma BatchStep(p: Player, f: seq<Frame>, batch: seq<Frame>)
    ensures VideoBatched(p.(frames := p.frames + Datas(f)), batch) == p.(frames := p.frames + Datas(f + batch))
  {
    DatasAppend(f, batch);
    assert (p.frames + Datas(f)) + Datas(batch) == p.frames + (Datas(f) + Datas(batch));
    if batch == [] {
      assert f + batch == f;
    }
  }

  lemma DatasAppend(a: seq<Frame>, b: seq<Frame>)
    ensures Datas(a + b) == Datas(a) + Datas(b)
  {
  }

  /** Numbering frames and taking their texts back gives the frames. */
  lemma DatasNumbered(frames: seq<string>)
    ensures Datas(WebcamService.Numbered(frames, 0)) == frames
  {
  }

  /**
   * What the server sends for a recording of n > 0 frames leaves the player
   * holding exactly those frames, in order, on the first frame, with the
   * seeker sized to n - 1, and playing.
   */
  lemma ReceivesRecording(p: Player, frames: seq<string>)
    requires |frames| > 0
    ensures var q := Deliver(p, WebcamService.Transmission(Some(frames)));
      q.frames == frames && q.index == 0 && q.screen == Some(frames[0])
      && q.seekerMax == |frames| - 1 && q.playing
  {
    var b := WebcamService.Batches(frames, 0);
    WebcamService.BatchesCarryEveryFrame(frames, 0);
    WebcamService.BatchesShape(frames, 0);
    var started := VideoStarted(p);
    StartThenBatches(p, |frames|, b);
    BatchesAppend(started, b);
    DatasNumbered(frames);
    assert Deliver(p, [VideoStart(|frames|)] + b) == started.(frames := frames);
    EndDelivered(p, [VideoStart(|frames|)] + b);
    assert WebcamService.Transmission(Some(frames)) == [VideoStart(|frames|)] + b + [VideoEnd];
  }

  /** video_start, then batches: the batches are delivered to the emptied player. */
  lemma StartThenBatches(p: Player, n: nat, b: seq<Message>)
    requires forall k :: 0 <= k < |b| ==> b[k].VideoBatch?
    ensures Deliver(p, [VideoStart(n)] + b) == Deliver(VideoStarted(p), b)
  {
    DeliverAppend(p, [VideoStart(n)], b);
    assert [VideoStart(n)][..0] == [];
  }

  /** Delivering two lists in a row is delivering the second to the result of the first. */
  lemma {:induction false} DeliverAppend(p: Player, a: seq<Message>, b: seq<Message>)
    ensures Deliver(p, a + b) == Deliver(Deliver(p, a), b)
    decreases |b|
  {
    if b == [] {
      assert a + b == a;
    } else {
      assert (a + b)[..|a + b| - 1] == a + b[..|b| - 1];
      DeliverAppend(p, a, b[..|b| - 1]);
    }
  }

  /** video_end over the frames received so far. */
  lemma EndDelivered(p: Player, msgs: seq<Message>)
    ensures Deliver(p, msgs + [VideoEnd]) == VideoEnded(Deliver(p, msgs))
  {
    assert (msgs + [VideoEnd])[..|msgs|] == msgs;
  }

  // ---------------------------------------------------------------- the manager

  class WebcamManager {
    var frames: seq<string>
    var currentFrameIdx: int
    var isPlaying: bool
    var seekerMax: int
    var screen: Option<string>
    var replay: bool

    /** The player state the fields hold. */
    function State(): Player
      reads this
    {
      Player(frames, currentFrameIdx, isPlaying, seekerMax, screen, replay)
    }

    constructor()
      ensures State() == Idle
    {
      frames := [];
      currentFrameIdx := 0;
      isPlaying := false;
      seekerMax := 0;
      screen := None;
      replay := false;
    }

    method ShowFrame(index: int)
      modifies this
      ensures State() == Showing(old(State()), index)
    {
      if |frames| == 0 {
        return;
      }
      if index < 0 || index >= |frames| {
        return;
      }
      screen := Some(frames[index]);
      currentFrameIdx := index;
    }

    method Play()
      modifies this
      ensures State() == Playing(old(State()))
    {
      if isPlaying {
        return;
      }
      isPlaying := true;
      replay := false;
      if currentFrameIdx >= |frames| - 1 {
        currentFrameIdx := 0;
      }
    }

    /** The body of the interval play() starts; it runs only while playing. */
    method Tick()
      requires isPlaying
      modifies this
      ensures State() == Ticked(old(State()))
    {
      currentFrameIdx := currentFrameIdx + 1;
      if currentFrameIdx >= |frames| {
        Pause();
        replay := true;
      } else {
        ShowFrame(currentFrameIdx);
      }
    }

    method Pause()
      modifies this
      ensures State() == Paused(old(State()))
    {
      isPlaying := false;
    }

    /** The seeker's input handler, with the seeker's parsed value. */
    method OnSeek(value: int)
      modifies this
      ensures State() == Sought(old(State()), value)
    {
      Pause();
      ShowFrame(value);
    }

    method LoadPlayer()
      modifies this
      ensures State() == Loaded(old(State()))
    {
      currentFrameIdx := 0;
      seekerMax := |frames| - 1;
      ShowFrame(0);
      Play();
    }

    method OnVideoStart()
      modifies this
      ensures State() == VideoStarted(old(State()))
    {
      frames := [];
      currentFrameIdx := 0;
    }

    /** The batch handler: frame by frame, each text pushed onto the list. */
    method OnVideoBatch(batch: seq<Frame>)
      modifies this
      ensures State() == VideoBatched(old(State()), batch)
    {
      if |batch| > 0 {
        var i := 0;
        while i < |batch|
          invariant i <= |batch|
          invariant State() == old(State()).(frames := old(frames) + Datas(batch[..i]))
        {
          frames := frames + [batch[i].data];
          DatasStep(old(frames), batch, i);
          i := i + 1;
        }
        assert batch[..i] == batch;
      }
    }

    method OnVideoEnd()
      modifies this
      ensures State() == VideoEnded(old(State()))
    {
      if |frames| > 0 {
        LoadPlayer();
      }
    }
  }

  /** One more frame's text pushed. */
  lemma DatasStep(start: seq<string>, batch: seq<Frame>, i: nat)
    requires i < |batch|
    ensures (start + Datas(batch[..i])) + [batch[i].data] == start + Datas(batch[..i + 1])
  {
    assert Datas(batch[..i + 1]) == Datas(batch[..i]) + [batch[i].data];
  }
}
