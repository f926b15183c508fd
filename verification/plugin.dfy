/**
 * The behaviour of the AutoChat plugin (the C# class `Plugin`): a frame-update
 * handler that batches frame deltas into half-second steps, counts the seconds
 * the feature has been ready, and once the configured interval is reached sends
 * the configured message, either as a chat command or as a local print.
 *
 * The two host calls a send makes (`ChatGui.Print`, `CommandManager.ProcessCommand`)
 * are returned as a `SendAction` value instead of being performed.
 */
module AutoChat {
  import opened Wrappers
  import opened Text
  import opened Channels
  import opened Configuration

  /** What one attempt to send does: nothing, a local print, or one chat command. */
  datatype SendAction = NoAction | Print(text: string) | Command(text: string)

  // ---------------------------------------------------------------------------
  // Sending
  // ---------------------------------------------------------------------------

  /** Splits a chat command at its first space into the channel its prefix selects
      and the message that follows. */
  function ParseCommand(s: string): Option<(ChatChannel, string)> {
    var i := IndexOf(s, ' ');
    if i == |s| then None
    else
      match ParsePrefix(s[..i])
      case None => None
      case Some(c) => Some((c, s[i + 1..]))
  }

  /** A command built from a channel's prefix, a space and any message reads back as
      that channel and that message: the prefix holds no space, so the first space is
      the separator. */
  lemma {:induction false} CommandReadsBack(c: ChatChannel, msg: string)
    requires GetChannelPrefix(c) != []
    ensures ParseCommand(GetChannelPrefix(c) + " " + msg) == Some((c, msg))
  {
    var p := GetChannelPrefix(c);
    var s := p + " " + msg;
    IndexOfAfter(p, ' ', msg);
    assert s[..|p|] == p;
    assert s[|p| + 1..] == msg;
    PrefixParses(c);
  }

  /** `TrySend`: what sending the configured message does. A null, empty or all-white-space
      message sends nothing. Otherwise the trimmed message is printed locally when the channel
      has no command prefix (`YellowText` or an undeclared value), and is otherwise issued as
      one chat command that reads back as the configured channel and the trimmed message. */
  function TrySend(config: Settings): (a: SendAction)
    ensures a.NoAction? <==> AllWhiteSpace(MessageOrEmpty(config))
    ensures a.Print? <==>
      !AllWhiteSpace(MessageOrEmpty(config)) && (config.channel == YellowText || config.channel.Undeclared?)
    ensures a.Print? ==> a.text == Trim(MessageOrEmpty(config))
    ensures a.Command? ==> ParseCommand(a.text) == Some((config.channel, Trim(MessageOrEmpty(config))))
  {
    var msg := Trim(MessageOrEmpty(config));
    if msg == [] then NoAction
    else
      var prefix := GetChannelPrefix(config.channel);
      if prefix == [] then Print(msg)
      else
        CommandReadsBack(config.channel, msg);
        Command(prefix + " " + msg)
  }

  /** The text a send puts into the chat is never empty and never starts or ends with
      white space, whichever of the two host calls carries it. */
  lemma SentTextIsTrimmed(config: Settings)
    ensures TrySend(config).Print? ==> TrySend(config).text != [] && IsTrimmed(TrySend(config).text)
    ensures TrySend(config).Command? ==>
      var p := GetChannelPrefix(config.channel);
      var m := TrySend(config).text[|p| + 1..];
      && |TrySend(config).text| > |p| + 1
      && TrySend(config).text[..|p|] == p
      && TrySend(config).text[|p|] == ' '
      && m == Trim(MessageOrEmpty(config)) && m != [] && IsTrimmed(m)
  {
    var msg := Trim(MessageOrEmpty(config));
    var p := GetChannelPrefix(config.channel);
    if msg != [] && p != [] {
      CommandSplits(p, msg);
    }
  }

  /** The pieces of `p + " " + msg`, sliced back out. */
  lemma CommandSplits(p: string, msg: string)
    ensures |p + " " + msg| == |p| + 1 + |msg|
    ensures (p + " " + msg)[..|p|] == p
    ensures (p + " " + msg)[|p|] == ' '
    ensures (p + " " + msg)[|p| + 1..] == msg
  {
  }

  /** A message that is already clean (non-empty, no white space at either end) is sent
      unchanged: printed as it is, or carried as it is by the channel's command. */
  lemma {:induction false} CleanMessageSentUnchanged(config: Settings)
    requires config.message.Some? && config.message.value != [] && IsTrimmed(config.message.value)
    ensures !TrySend(config).NoAction?
    ensures TrySend(config).Print? ==> TrySend(config).text == config.message.value
    ensures TrySend(config).Command? ==>
      ParseCommand(TrySend(config).text) == Some((config.channel, config.message.value))
  {
    var m := config.message.value;
    assert Trim(MessageOrEmpty(config)) == m by {
      assert [] + m + [] == m;
      TrimUnique([], m, []);
    }
  }

  /** The settings a fresh plugin starts with send "Hello, world!" as a Say command. */
  lemma DefaultSendsHelloInSay()
    ensures TrySend(Default()).Command?
    ensures ParseCommand(TrySend(Default()).text) == Some((Say, "Hello, world!"))
  {
    var msg := "Hello, world!";
    assert IsTrimmed(msg) by {
      assert !IsWhiteSpace(msg[0]) && !IsWhiteSpace(msg[|msg| - 1]);
    }
    CleanMessageSentUnchanged(Default());
  }

  // ---------------------------------------------------------------------------
  // The interval dispatcher, as a function of its state
  // ---------------------------------------------------------------------------

  /** Frame deltas are batched until they add up to this many seconds. */
  const TickStep: real := 0.5

  /** Slack for the interval comparison (1e-6 seconds). */
  const Epsilon: real := 0.000001

  /** The dispatcher's two counters: seconds gathered towards the next step, and seconds
      counted towards the interval. */
  datatype Dispatcher = Dispatcher(tickAccum: real, elapsed: real)

  /** Both counters at zero: the state of a fresh plugin and the state after a send. */
  const Idle: Dispatcher := Dispatcher(0.0, 0.0)

  /** What one frame update sees: the time since the previous frame, the settings and
      whether the player is logged in. */
  datatype Frame = Frame(delta: real, config: Settings, isLoggedIn: bool)

  /** Whether a frame lets the interval count: the feature is on, the interval is at least
      one second and the player is logged in. */
  predicate Ready(f: Frame) {
    f.config.enabled && f.config.intervalSeconds >= 1 && f.isLoggedIn
  }

  /** The counters stay within their ranges while frame deltas are not negative. */
  predicate Inv(s: Dispatcher) {
    0.0 <= s.tickAccum < TickStep && 0.0 <= s.elapsed
  }

  /** One frame update: the new counters and whether a send is attempted. Whatever the
      delta, the step accumulator ends below `TickStep`; a send happens only on a ready
      frame and leaves both counters at zero; non-negative deltas keep `Inv`. */
  function Update(s: Dispatcher, f: Frame): (r: (Dispatcher, bool))
    ensures r.0.tickAccum < TickStep
    ensures r.1 ==> Ready(f) && r.0 == Idle
    ensures Inv(s) && f.delta >= 0.0 ==> Inv(r.0)
  {
    var step := s.tickAccum + f.delta;
    if step < TickStep then (Dispatcher(step, s.elapsed), false)
    else if !Ready(f) then (Idle, false)
    else if s.elapsed + step + Epsilon >= f.config.intervalSeconds as real then (Idle, true)
    else (Dispatcher(0.0, s.elapsed + step), false)
  }

  /** Below the step threshold an update only adds the delta to the step accumulator:
      the interval count is untouched and nothing is sent. */
  lemma BelowStepOnlyAccumulates(s: Dispatcher, f: Frame)
    requires s.tickAccum + f.delta < TickStep
    ensures Update(s, f) == (Dispatcher(s.tickAccum + f.delta, s.elapsed), false)
  {
  }

  /** Once the step threshold is reached the accumulator is emptied, and a frame that is
      not ready also zeroes the interval count and sends nothing. */
  lemma StepResetsAccumulator(s: Dispatcher, f: Frame)
    requires s.tickAccum + f.delta >= TickStep
    ensures Update(s, f).0.tickAccum == 0.0
    ensures !Ready(f) ==> Update(s, f) == (Idle, false)
  {
  }

  /** On a ready step, a send is attempted exactly when the count including this step
      reaches the interval (up to `Epsilon`); then the count restarts at zero, and
      otherwise it grows by the whole step. */
  lemma ReadyStepFiresAtInterval(s: Dispatcher, f: Frame)
    requires s.tickAccum + f.delta >= TickStep && Ready(f)
    ensures Update(s, f).1 <==>
      s.elapsed + s.tickAccum + f.delta + Epsilon >= f.config.intervalSeconds as real
    ensures Update(s, f).1 ==> Update(s, f).0.elapsed == 0.0
    ensures !Update(s, f).1 ==> Update(s, f).0.elapsed == s.elapsed + s.tickAccum + f.delta
  {
  }

  // ---------------------------------------------------------------------------
  // Runs of frames
  // ---------------------------------------------------------------------------

  /** The counters after a run of frames, and for each frame whether it attempted a send. */
  function Run(s: Dispatcher, frames: seq<Frame>): (r: (Dispatcher, seq<bool>))
    ensures |r.1| == |frames|
    decreases |frames|
  {
    if frames == [] then (s, [])
    else
      var (s1, sent) := Update(s, frames[0]);
      var (s2, rest) := Run(s1, frames[1..]);
      (s2, [sent] + rest)
  }

  function Repeat<T>(x: T, n: nat): (r: seq<T>)
    ensures |r| == n
    ensures forall i :: 0 <= i < n ==> r[i] == x
  {
    if n == 0 then [] else [x] + Repeat(x, n - 1)
  }

  /** The total time the frames of a run report. */
  function TotalDelta(frames: seq<Frame>): real
    decreases |frames|
  {
    if frames == [] then 0.0 else frames[0].delta + TotalDelta(frames[1..])
  }

  predicate AllReady(frames: seq<Frame>) {
    forall i :: 0 <= i < |frames| ==> Ready(frames[i])
  }

  predicate NoneNegative(frames: seq<Frame>) {
    forall i :: 0 <= i < |frames| ==> frames[i].delta >= 0.0
  }

  /** Every frame of the run configures the same interval. */
  predicate SameInterval(frames: seq<Frame>, interval: int) {
    forall i :: 0 <= i < |frames| ==> frames[i].config.intervalSeconds == interval
  }

  /** Running two stretches of frames one after the other is running their concatenation. */
  lemma {:induction false} RunAppend(s: Dispatcher, a: seq<Frame>, b: seq<Frame>)
    ensures Run(s, a + b) == (Run(Run(s, a).0, b).0, Run(s, a).1 + Run(Run(s, a).0, b).1)
    decreases |a|
  {
    if a != [] {
      assert (a + b)[0] == a[0];
      assert (a + b)[1..] == a[1..] + b;
      var s1 := Update(s, a[0]).0;
      RunAppend(s1, a[1..], b);
      var x := Run(s1, a[1..]);
      assert [Update(s, a[0]).1] + (x.1 + Run(x.0, b).1) == ([Update(s, a[0]).1] + x.1) + Run(x.0, b).1;
    } else {
      assert a + b == b;
      assert Run(s, a).1 + Run(s, b).1 == Run(s, b).1;
    }
  }

  /** Non-negative deltas keep the counters in range across a whole run. */
  lemma {:induction false} RunKeepsInv(s: Dispatcher, frames: seq<Frame>)
    requires Inv(s) && NoneNegative(frames)
    ensures Inv(Run(s, frames).0)
    decreases |frames|
  {
    if frames != [] {
      RunKeepsInv(Update(s, frames[0]).0, frames[1..]);
    }
  }

  /** Batching loses no time: over ready frames that send nothing, the two counters
      together grow by exactly the time the frames report. */
  lemma {:induction false} BatchingLosesNoTime(s: Dispatcher, frames: seq<Frame>)
    requires AllReady(frames)
    requires forall i :: 0 <= i < |frames| ==> !Run(s, frames).1[i]
    ensures Run(s, frames).0.tickAccum + Run(s, frames).0.elapsed
      == s.tickAccum + s.elapsed + TotalDelta(frames)
    decreases |frames|
  {
    if frames != [] {
      var s1 := Update(s, frames[0]).0;
      assert !Run(s, frames).1[0];
      assert forall i :: 0 <= i < |frames| - 1 ==> Run(s1, frames[1..]).1[i] == Run(s, frames).1[i + 1];
      BatchingLosesNoTime(s1, frames[1..]);
    }
  }

  /** No send comes early: starting from counters in range, frames with non-negative
      deltas and one interval send nothing while the counted time plus all the time they
      report stays below the interval (by more than `Epsilon`). */
  lemma {:induction false} NoSendBeforeInterval(s: Dispatcher, frames: seq<Frame>, interval: int)
    requires Inv(s) && NoneNegative(frames) && SameInterval(frames, interval)
    requires s.tickAccum + s.elapsed + TotalDelta(frames) + Epsilon < interval as real
    ensures Run(s, frames).1 == Repeat(false, |frames|)
    decreases |frames|
  {
    if frames != [] {
      var s1 := Update(s, frames[0]).0;
      assert s1.tickAccum + s1.elapsed <= s.tickAccum + s.elapsed + frames[0].delta;
      TotalDeltaNonNegative(frames[1..]);
      assert !Update(s, frames[0]).1;
      NoSendBeforeInterval(s1, frames[1..], interval);
    }
  }

  /** No send comes late: starting below the interval, ready frames with one interval that
      report, together with the time already counted, at least one whole step beyond the
      interval send at least once. */
  lemma {:induction false} NoSendAfterInterval(s: Dispatcher, frames: seq<Frame>, interval: int)
    requires Inv(s) && s.elapsed + Epsilon < interval as real
    requires AllReady(frames) && SameInterval(frames, interval)
    requires s.tickAccum + s.elapsed + TotalDelta(frames) + Epsilon >= interval as real + TickStep
    ensures exists i :: 0 <= i < |frames| && Run(s, frames).1[i]
  {
    var r := Run(s, frames);
    if forall i :: 0 <= i < |frames| ==> !r.1[i] {
      BatchingLosesNoTime(s, frames);
      QuietRunStaysBelow(s, frames, interval);
      RunKeepsStepBelow(s, frames);
      assert false;
    }
  }

  /** Ready frames that send nothing leave the count more than `Epsilon` below the interval. */
  lemma {:induction false} QuietRunStaysBelow(s: Dispatcher, frames: seq<Frame>, interval: int)
    requires s.elapsed + Epsilon < interval as real
    requires AllReady(frames) && SameInterval(frames, interval)
    requires forall i :: 0 <= i < |frames| ==> !Run(s, frames).1[i]
    ensures Run(s, frames).0.elapsed + Epsilon < interval as real
    decreases |frames|
  {
    if frames != [] {
      var s1 := Update(s, frames[0]).0;
      assert !Run(s, frames).1[0];
      assert forall i :: 0 <= i < |frames| - 1 ==> Run(s1, frames[1..]).1[i] == Run(s, frames).1[i + 1];
      QuietRunStaysBelow(s1, frames[1..], interval);
    }
  }

  /** A run leaves the step accumulator below `TickStep` if it started there. */
  lemma {:induction false} RunKeepsStepBelow(s: Dispatcher, frames: seq<Frame>)
    requires s.tickAccum < TickStep
    ensures Run(s, frames).0.tickAccum < TickStep
    decreases |frames|
  {
    if frames != [] {
      RunKeepsStepBelow(Update(s, frames[0]).0, frames[1..]);
    }
  }

  lemma {:induction false} TotalDeltaNonNegative(frames: seq<Frame>)
    requires NoneNegative(frames)
    ensures TotalDelta(frames) >= 0.0
    decreases |frames|
  {
    if frames != [] {
      TotalDeltaNonNegative(frames[1..]);
    }
  }

  /** Every frame of the run reports at least one whole step. */
  predicate WholeSteps(frames: seq<Frame>) {
    forall i :: 0 <= i < |frames| ==> frames[i].delta >= TickStep
  }

  /** Ready frames that each report at least a whole step add their time to the interval
      count one frame at a time, and send nothing while the count stays below the interval. */
  lemma {:induction false} ReadyStepsAccumulate(s: Dispatcher, frames: seq<Frame>, interval: int)
    requires s.tickAccum == 0.0 && AllReady(frames) && WholeSteps(frames) && SameInterval(frames, interval)
    requires s.elapsed + TotalDelta(frames) + Epsilon < interval as real
    ensures Run(s, frames) == (Dispatcher(0.0, s.elapsed + TotalDelta(frames)), Repeat(false, |frames|))
    decreases |frames|
  {
    if frames != [] {
      var f := frames[0];
      var s1 := Dispatcher(0.0, s.elapsed + f.delta);
      assert NoneNegative(frames[1..]);
      TotalDeltaNonNegative(frames[1..]);
      assert Update(s, f) == (s1, false);
      ReadyStepsAccumulate(s1, frames[1..], interval);
      assert [false] + Repeat(false, |frames| - 1) == Repeat(false, |frames|);
    }
  }

  /** `n` copies of one frame report `n` times its delta. */
  lemma {:induction false} TotalDeltaRepeat(f: Frame, n: nat)
    ensures TotalDelta(Repeat(f, n)) == (n as real) * f.delta
  {
    if n > 0 {
      TotalDeltaRepeat(f, n - 1);
      assert Repeat(f, n)[1..] == Repeat(f, n - 1);
      assert (n as real) * f.delta == ((n - 1) as real) * f.delta + f.delta;
    }
  }

  /** Interval 10 seconds, ready, and a frame every half second: the first nineteen frames
      send nothing, the twentieth sends, and the twenty-first starts the count again. */
  lemma TwentiethHalfSecondSends(f: Frame)
    requires f.delta == 0.5 && Ready(f) && f.config.intervalSeconds == 10
    ensures Run(Idle, Repeat(f, 21)) == (Dispatcher(0.0, 0.5), Repeat(false, 19) + [true, false])
  {
    RepeatSplit(f, 19, 2);
    RunAppend(Idle, Repeat(f, 19), Repeat(f, 2));
    TotalDeltaRepeat(f, 19);
    ReadyStepsAccumulate(Idle, Repeat(f, 19), 10);
    var s19 := Dispatcher(0.0, 9.5);
    assert Run(Idle, Repeat(f, 19)) == (s19, Repeat(false, 19));
    assert Update(s19, f) == (Idle, true);
    assert Update(Idle, f) == (Dispatcher(0.0, 0.5), false);
    assert Repeat(f, 2) == [f, f];
    RunAppend(s19, [f], [f]);
    RunSingle(s19, f);
    RunSingle(Idle, f);
    assert [f] + [f] == [f, f];
    assert [true] + [false] == [true, false];
  }

  /** Running `[f] + frames` is one update followed by the run of `frames`. */
  lemma RunCons(s: Dispatcher, f: Frame, frames: seq<Frame>)
    ensures Run(s, [f] + frames)
      == (Run(Update(s, f).0, frames).0, [Update(s, f).1] + Run(Update(s, f).0, frames).1)
  {
    assert ([f] + frames)[0] == f;
    assert ([f] + frames)[1..] == frames;
  }

  lemma RunSingle(s: Dispatcher, f: Frame)
    ensures Run(s, [f]) == (Update(s, f).0, [Update(s, f).1])
  {
    assert [f][1..] == [];
    assert [Update(s, f).1] + [] == [Update(s, f).1];
  }

  lemma {:induction false} RepeatSplit<T>(x: T, m: nat, n: nat)
    ensures Repeat(x, m + n) == Repeat(x, m) + Repeat(x, n)
  {
    if m > 0 {
      RepeatSplit(x, m - 1, n);
    }
  }

  /** Switching off forgets partial progress: a step taken while not ready zeroes the count
      whatever it was, so after switching back on the interval is counted from zero. */
  lemma {:induction false} DisableForgetsProgress(s: Dispatcher, off: Frame, frames: seq<Frame>, interval: int)
    requires s.tickAccum + off.delta >= TickStep && !Ready(off)
    requires AllReady(frames) && WholeSteps(frames) && SameInterval(frames, interval)
    requires TotalDelta(frames) + Epsilon < interval as real
    ensures Run(s, [off] + frames) == (Dispatcher(0.0, TotalDelta(frames)), Repeat(false, |frames| + 1))
  {
    assert Update(s, off) == (Idle, false);
    RunCons(s, off, frames);
    ReadyStepsAccumulate(Idle, frames, interval);
    assert [false] + Repeat(false, |frames|) == Repeat(false, |frames| + 1);
  }

  /** Fresh settings are switched off, so a plugin running on them never sends. */
  lemma {:induction false} DefaultSettingsNeverSend(s: Dispatcher, frames: seq<Frame>)
    requires forall i :: 0 <= i < |frames| ==> frames[i].config == Default()
    ensures Run(s, frames).1 == Repeat(false, |frames|)
    decreases |frames|
  {
    if frames != [] {
      assert !Ready(frames[0]);
      DefaultSettingsNeverSend(Update(s, frames[0]).0, frames[1..]);
    }
  }

  // ---------------------------------------------------------------------------
  // The plugin object
  // ---------------------------------------------------------------------------

  /** The plugin's own state: its settings and the dispatcher's two counters, updated in
      place on every frame. */
  class Plugin {
    var config: Settings
    var tickAccum: real
    var elapsed: real

    /** Loads the stored settings, or fresh ones when the host has none; both counters
        start at zero. */
    constructor (stored: Option<Settings>)
      ensures config == stored.GetOr(Default())
      ensures State() == Idle
    {
      config := stored.GetOr(Default());
      tickAccum := 0.0;
      elapsed := 0.0;
    }

    function State(): Dispatcher
      reads this
    {
      Dispatcher(tickAccum, elapsed)
    }

    ghost predicate Valid()
      reads this
    {
      Inv(State())
    }

    /** `OnFrameworkUpdate`: one frame. The counters move as `Update` says, the settings
        are left alone, and when a send is attempted its effect is `TrySend` of the settings. */
    method OnFrameworkUpdate(delta: real, isLoggedIn: bool) returns (sent: bool, action: SendAction)
      modifies this`tickAccum, this`elapsed
      ensures (State(), sent) == Update(old(State()), Frame(delta, config, isLoggedIn))
      ensures action == if sent then TrySend(config) else NoAction
      ensures old(Valid()) && delta >= 0.0 ==> Valid()
    {
      tickAccum := tickAccum + delta;
      if tickAccum < TickStep {
        return false, NoAction;
      }

      var step := tickAccum;
      tickAccum := 0.0;

      if !config.enabled || config.intervalSeconds < 1 || !isLoggedIn {
        elapsed := 0.0;
        return false, NoAction;
      }

      elapsed := elapsed + step;
      if elapsed + Epsilon >= config.intervalSeconds as real {
        elapsed := 0.0;
        action := TrySend(config);
        return true, action;
      }
      return false, NoAction;
    }
  }
}
