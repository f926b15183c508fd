# AutoChat in Dafny

A model of the AutoChat game-client plugin, which sends a configured chat message
into a chosen in-game channel at a fixed interval. The model covers the plugin's
whole behaviour outside host plumbing and UI:

- **Interval dispatcher** (`Plugin.OnFrameworkUpdate`). The host calls it once per
  frame with the time since the previous frame. Frame deltas are gathered in
  `tickAccum` until they reach a half-second step. Each step is then added to
  `elapsed` while the feature is ready: it is enabled, the interval is at least one
  second and the player is logged in. When `elapsed` reaches the configured
  interval (with 1e-6 of slack), the counter restarts and a send is attempted. A
  step taken while not ready zeroes `elapsed`.
- **Send decision** (`Plugin.TrySend`). The configured message is trimmed, with null
  read as empty. An empty result sends nothing. Otherwise the message is printed
  locally when the channel has no command prefix. In every other case it is issued
  as the single command `prefix + " " + message`.
- **Channel resolver** (`Plugin.GetChannelPrefix`). This is a total table from the
  `ChatChannel` enum to chat command prefixes.
- **Settings** (`Configuration`): the stored record and its defaults.

Files:

- `plugin.dfy` (module `AutoChat`): the class `Plugin` with its fields `config`,
  `tickAccum` and `elapsed`, and the method `OnFrameworkUpdate`, which updates
  the fields in place. It is specified by the pure function `Update` on a
  `Dispatcher` value. `Run` folds `Update` over a sequence of frames, and the
  lemmas about whole runs are stated with it. `TrySend` is a function that returns
  a `SendAction` (`NoAction | Print(text) | Command(text)`) in place of the two
  host calls.
- `channels.dfy` (module `Channels`): the enum, its implicit numbering 0 to 22,
  `GetChannelPrefix`, and `ParsePrefix`, a parser that reads a prefix back as its
  channel.
- `configuration.dfy` (module `Configuration`): the settings record. Its channel is a `Channel`: an `Undeclared` value only carries an integer that no declared member has.
- `text.dfy` (module `Text`): .NET `String.Trim` over the `Char.IsWhiteSpace`
  characters, and `IndexOf`.
- `wrappers.dfy` (module `Wrappers`): `Option`, used for a nullable reference.

Times are `real` seconds. The source's `double` arithmetic is taken as exact.

The send path only trims the message (FFXIV_AutoChat/Plugin.cs:89). It does not
normalise line breaks, cap the length, or save a corrected message back to the
settings. The readiness test compares the interval with 1 (FFXIV_AutoChat/Plugin.cs:73),
not with the 5 to 3600 range that the window's slider enforces.

## Model

| member | source | states |
|---|---|---|
| `Configuration.Default` | FFXIV_AutoChat/Configuration.cs:8-13 | Fresh settings are switched off, use an interval of five minutes and select the channel numbered 0 (`Say`). Their message is shown by `DefaultSendsHelloInSay`. |
| `AutoChat.Plugin.OnFrameworkUpdate` | FFXIV_AutoChat/Plugin.cs:64-85 | The new `tickAccum`/`elapsed` and whether a send happened are exactly `Update` of the old counters, the current settings and the login state. The settings are not modified. When a send happens, its effect is `TrySend(config)`, otherwise nothing. Non-negative deltas keep the counters in range. |
| `AutoChat.Plugin.constructor` | FFXIV_AutoChat/Plugin.cs:34 | The plugin uses the stored settings, or fresh defaults when there are none. Both counters start at zero. |
| `AutoChat.Update` | FFXIV_AutoChat/Plugin.cs:64-85 | For any delta, the step accumulator ends below 0.5. A send happens only on a ready frame and leaves both counters at zero, so at most one send happens per update. Non-negative deltas keep `0 <= tickAccum < 0.5` and `elapsed >= 0`. |
| `AutoChat.BelowStepOnlyAccumulates` | FFXIV_AutoChat/Plugin.cs:66-68 | While `tickAccum + delta < 0.5`, an update only adds the delta to `tickAccum`. `elapsed` is unchanged and nothing is sent. |
| `AutoChat.StepResetsAccumulator` | FFXIV_AutoChat/Plugin.cs:70-77 | Once the step is reached, `tickAccum` is exactly 0 afterwards. When the feature is disabled, the interval is below 1 or the player is logged out, `elapsed` also becomes 0 and nothing is sent. |
| `AutoChat.ReadyStepFiresAtInterval` | FFXIV_AutoChat/Plugin.cs:79-84 | On a ready step, a send is attempted iff `elapsed + step + 1e-6 >= IntervalSeconds`. After a send `elapsed` is exactly 0; otherwise it grew by the whole step. |
| `AutoChat.RunKeepsInv` | FFXIV_AutoChat/Plugin.cs:61-85 | Over any run of frames with non-negative deltas, `0 <= tickAccum < 0.5` and `elapsed >= 0` are preserved. |
| `AutoChat.BatchingLosesNoTime` | FFXIV_AutoChat/Plugin.cs:66-79 | Over ready frames that send nothing, `tickAccum + elapsed` grows by exactly the sum of the frame deltas. Batching into half-second steps loses no time. |
| `AutoChat.NoSendBeforeInterval` | FFXIV_AutoChat/Plugin.cs:79-84 | Take a run with non-negative deltas and one interval. If the counted time plus all reported time stays more than 1e-6 below the interval, no frame of the run sends. |
| `AutoChat.NoSendAfterInterval` | FFXIV_AutoChat/Plugin.cs:66-84 | No send is late. Take a run of ready frames with one interval, starting with the counters in range and `elapsed` below the interval. If the counted time plus all reported time reaches the interval plus one half-second step, some frame of the run sends. |
| `AutoChat.ReadyStepsAccumulate` | FFXIV_AutoChat/Plugin.cs:79-80 | Start with an empty step accumulator. Take ready frames that each report at least 0.5 s and share one interval. While the counted time plus all their time stays more than 1e-6 below the interval, every frame adds its whole delta to `elapsed` and none sends. |
| `AutoChat.TwentiethHalfSecondSends` | FFXIV_AutoChat/Plugin.cs:64-85 | With interval 10, ready, and twenty-one 0.5 s frames from zero: frames 1-19 send nothing, frame 20 sends, and frame 21 starts counting again at 0.5. Exactly one send happens. |
| `AutoChat.DisableForgetsProgress` | FFXIV_AutoChat/Plugin.cs:73-77 | A step taken while not ready discards any partial count. On the ready whole-step frames that follow, `elapsed` counts from zero whatever it was before. |
| `AutoChat.DefaultSettingsNeverSend` | FFXIV_AutoChat/Configuration.cs:10 | Fresh settings are disabled, so a run on them never sends. |
| `AutoChat.TrySend` | FFXIV_AutoChat/Plugin.cs:87-101 | Nothing is sent iff the message is null, empty or all white space. The message is printed locally iff it is non-blank and the channel is `YellowText` or undeclared, and the printed text is the trimmed message. Otherwise one command is issued, and it reads back as the configured channel and the trimmed message. |
| `AutoChat.CommandReadsBack` | FFXIV_AutoChat/Plugin.cs:99-100 | `prefix + " " + msg` splits at its first space back into the prefix's channel and `msg`, for every channel with a prefix and every message. |
| `AutoChat.SentTextIsTrimmed` | FFXIV_AutoChat/Plugin.cs:89-100 | Printed text is non-empty and trimmed. A command is the prefix, one space, then the trimmed non-empty message. |
| `AutoChat.CleanMessageSentUnchanged` | FFXIV_AutoChat/Plugin.cs:89-100 | A non-empty message with no white space at either end is always sent, and sent unchanged: printed as it is, or carried as it is by the channel's command. |
| `AutoChat.DefaultSendsHelloInSay` | FFXIV_AutoChat/Configuration.cs:11-13 | With the default settings, a send issues a command that reads back as the Say channel and the message `Hello, world!`. |
| `Channels.GetChannelPrefix` | FFXIV_AutoChat/Plugin.cs:103-129 | Total over the enum. The prefix is empty exactly for `YellowText` and for undeclared values (the default arm). Every other prefix has 2 to 4 characters, starts with `/` and contains no space. |
| `Channels.PrefixParses` | FFXIV_AutoChat/Plugin.cs:105-126 | Every non-empty prefix in the table reads back as its own channel through the independent parser `ParsePrefix`. |
| `Channels.ParsedPrefixInTable` | FFXIV_AutoChat/Plugin.cs:105-126 | Every string the parser accepts is the table entry of the channel it yields, so table and parser are mutually inverse. |
| `Channels.PrefixesDistinct` | FFXIV_AutoChat/Plugin.cs:105-126 | Two channels with the same non-empty prefix are the same channel, so the 22 prefixes are pairwise distinct. |
| `Channels.ChannelOf` | FFXIV_AutoChat/Plugin.cs:154-179 | Converting an integer to the enum gives a `Channel` (a declared member, or an undeclared value only for integers outside 0 to 22) that is stored back as the same integer. The result is therefore the declared member numbered `v` when there is one. |
| `Channels.ChannelRoundTrip` | FFXIV_AutoChat/Plugin.cs:154-179 | Storing any channel as its integer and reading it back gives the same channel. With `ChannelOf`, the implicit numbering is a bijection between integers and channel values. |
| `Text.Trim` | FFXIV_AutoChat/Plugin.cs:89 | Neither end of the result of `String.Trim` is white space, and the result is empty iff the input is all white space. |
| `Text.TrimDecomposes` | FFXIV_AutoChat/Plugin.cs:89 | Every string is its leading white space, then `Trim` of it, then its trailing white space. So `Trim` returns a contiguous middle and cuts off only white space. |
| `Text.TrimUnique` | FFXIV_AutoChat/Plugin.cs:89 | Whenever the input is white space, a trimmed middle and white space, `Trim` returns that middle. This is an independent characterisation of `Trim`. |
| `Text.TrimIdempotent` | FFXIV_AutoChat/Plugin.cs:89 | Trimming an already trimmed message changes nothing. |

## Left out

- Plugin construction wiring and `Dispose` (FFXIV_AutoChat/Plugin.cs:14-54, 131-151) are left out. They register and unregister host event handlers, windows and the `/autochat` command, which is host plumbing. The constructor keeps only the choice between the stored and the default settings.
- `OnCommand`, `DrawUI` and `OpenConfigWindow` are left out. They only open or draw the configuration window.
- `Configuration.Sanitize`, `Configuration.NormalizeMessage` and `Configuration.MaxMessageLength` are not part of this model. They are called by the constructor and the window, but their definitions are not among the source files. The constructor therefore does not sanitize the settings it loads.
- `Configuration.Initialize` and `Configuration.Save` are left out: they only persist settings through the host.
- The fail-safe controller and the initialization timeout are left out. No source file implements them.
- `Ui/AutoChatWindow.cs` is left out. It is immediate-mode UI drawing, and its edits to the settings appear in the model only as `config` taking any value between frames. The "Send now" button calls `TrySend`, which is modelled.
- `PluginLog.cs` is left out: it only forwards log messages to the host logger.
- The host calls `ChatGui.Print` and `CommandManager.ProcessCommand` appear only as the returned `SendAction`. Whatever the host does with them is outside the model.
- `ClientState.IsLoggedIn` and the frame delta are host inputs. They are parameters of `OnFrameworkUpdate`.
- IEEE-754 rounding of the `double` counters is not modelled. Times are exact reals, with 1e-6 kept as the constant `Epsilon`.
- Strings are sequences of Unicode scalar values, while C# strings are UTF-16 and can hold lone surrogates, which the model cannot represent. Every `Char.IsWhiteSpace` character lies in the Basic Multilingual Plane, so `Trim` behaves the same on every string the model can represent.
- `AutoChat.Update`: a `NaN` or infinite delta cannot be expressed with reals.
