# CardputerZero device stack: a verified model

This project models the C core of the CardputerZero device stack: the system
shell's JSON tokenizer and the request printers around it, the compositor
policy and the shell's mirror of it, the app runtime's display, key and
document paths, the shell's task thumbnails, and the runtime's system-call
filter. Its promises are proved for all inputs and over all runs.
`dafny verify dfyconfig.toml` checks the whole project.

Each part has a specification on values (a step function or a step system),
the source's operations in their own in-place form, proved equal to the
specification, and theorems about the specification.

- **JSON** (`Json*.dfy`). `JsonScan` is the tokenizer as a step function and
  `JsonGrammar` the lax grammar of texts as trees: `:` and `,` count as white
  space, and the text of section 2 of RFC 8259 is the special case `IsRfc`. The
  tokenizer accepts a text exactly if it is the text of a tree within the
  limits, and writes that tree in pre-order (`ParseDecides`). Index-skipping
  lookups are tree lookups. `JsonParser` is the in-place parser.
- **Printers** (`Buffers`, `Provision`, `Base64`, `Broker`). What is put into a
  request comes back out of the tokenizer, and base64 is a bijection onto
  canonical text (sections 3.5 and 4 of RFC 4648).
- **Compositor policy** (`AppTokens`, `Identifiers`, `PolicyModel`,
  `PolicyInvariants`, `PolicyTheorems`, `Policy`, `ShellBindings`, `Wake`).
  Handlers are steps over the policy's fields, the surfaces it reads and the
  events it sent. What is on screen is known at every moment, what each request
  brings about is stated on its own, and a reader of those events, the shell,
  ends up with the right bindings.
- **App runtime** (`Pixels`, `FramePacing`, `InputQueue`, `Display*`,
  `Document*`, `Seccomp`). A session of calls keeps two logs: what the
  compositor was sent, and what became of each key. Received descriptors are
  kept in a ledger in which only an open one can be closed.
- **Task capture** (`Thumbnails`, `ThumbnailTheorems`, `TaskCapture`). Slots,
  capture and task list as one step system.

What the environment does is a parameter of the steps: the events a dispatch
delivers, clock readings, results of system calls, replies of the daemons.
Its assumed behaviour is written down in `PolicyModel.Enabled`,
`Documents.Possible`, `Thumbnails.Possible` and `Wake.Enabled`: views are
mapped, re-parented and moved by others only together with a commit or a
destruction; fewer than 2^32 - 1 surfaces exist at a time; the kernel installs a
received descriptor under a free number; the compositor answers only captures
under way; nobody else changes the brightness of a sleeping display; and other
parties take the keyboard only from its default grab, never from the wake grab
(`Wake.GrabTaken` says exactly what that excludes). System calls that the model
has no parameter for succeed.

Where code and documentation differ the model follows the code:
docs/PHASE2C-WINDOW-SWITCHING.md (line 40) restricts an announced application id to
47 characters, the policy keeps 128. The tokenizer's search for a simple
escape also matches a NUL byte, so a backslash before NUL is accepted as part of a string and
refused only when the string is copied out.

Two promises hold only under a condition, and both are stated as exact conditions.
A committed screen shows its frame in full exactly if the app declared its
changes (`DisplayTheorems.SessionShows`, with a session that shows a stale
screen in `DisplayTheorems.StaleScreen`). An overlay mode other than full has an
active application unless the shell hides itself with none
(`PolicyInvariants.ModeStep`, with a run that shows it in
`PolicyInvariants.HiddenWithoutActive`).

## Model

| member | source | states |
|---|---|---|
| JsonParser.Tokenize | system-shell/src/json.c:105-166 | The in-place parser returns the token count, and writes the tokens, that the step function gives; -1 where that fails. |
| JsonParser.Parser.AllocateToken | system-shell/src/json.c:24-39 | Appends a token below the innermost open container and counts it as its child, or -1 when the array is full. |
| JsonParser.Parser.FourHexDigits | system-shell/src/json.c:70-73 | Accepts exactly four hexadecimal digits behind the `u`. |
| JsonParser.Parser.ScanString | system-shell/src/json.c:47-80 | Stops on the closing quote of the string, or fails where there is none or an escape is malformed. |
| JsonParser.Parser.ParseString | system-shell/src/json.c:47-80 | One string is one step of the scanner, failures included. |
| JsonParser.Parser.ParsePrimitive | system-shell/src/json.c:88-103 | One primitive is one step of the scanner. |
| JsonParser.Parser.OpenContainer | system-shell/src/json.c:128-140 | An opening bracket is one step: a token, and one more level up to sixteen. |
| JsonParser.Parser.CloseContainer | system-shell/src/json.c:141-154 | A closing bracket is one step: kind and, for objects, an even number of children are checked. |
| JsonComplete.ParseRendered | system-shell/src/json.c:105-166 | Every text of the lax grammar, up to depth 16 and the token capacity, is tokenized to the pre-order list of its own tree. |
| JsonComplete.ParseRfc | system-shell/src/json.c:105-166 | In particular every JSON text of RFC 8259 with any legal white space. |
| JsonSound.ParsedDocument | system-shell/src/json.c:105-166 | Every accepted text is the text of some tree within the limits. |
| JsonSound.ParseDecides | system-shell/src/json.c:105-166 | Both directions: the tokenizer returns these tokens exactly if a tree has this text, fits the limits, and flattens to these tokens. |
| JsonGrammar.RfcIsValid | system-shell/src/json.c:119-166 | The grammar of RFC 8259 is part of the lax one. |
| JsonShape.AcceptedIsTree | system-shell/src/json.c:24-39 | The tokens of an accepted text are one tree in pre-order: one root, parents before children, starts strictly increasing, intervals nested, `children` equal to the number of tokens naming that parent. |
| JsonShape.SubtreeIsInterval | system-shell/src/json.c:168-176 | A later token descends from `t` exactly if it stands before `after_subtree(t)`, and exactly if it starts before `t` ends. |
| JsonShape.NthChild | system-shell/src/json.c:202-221 | `array_get(a, i)` succeeds exactly when `i` is below `children`, with the child that has `i` children before it. |
| JsonShape.TokensScanned | system-shell/src/json.c:47-80 | Every string token of an accepted text has a well-formed body, which is what copying it out relies on. |
| JsonLookup.FindAfterSubtree | system-shell/src/json.c:168-176 | The loop finds the first token behind the subtree. |
| JsonLookup.FindInObject | system-shell/src/json.c:178-200 | The loop over keys and values is the recursive lookup, first match first. |
| JsonLookup.FindInArray | system-shell/src/json.c:202-221 | The loop over items is the recursive lookup. |
| JsonLookup.AfterNode | system-shell/src/json.c:168-176 | Skipping passes over exactly as many tokens as the value has nodes. |
| JsonLookup.PathsAgree | system-shell/src/json.c:178-221 | Any path of object and array lookups in the tokens finds the node the same path finds in the tree, or fails where that one does. |
| JsonValues.AppendUtf8 | system-shell/src/json.c:245-274 | Writes the encoding exactly if the code point has one and it fits with a byte to spare; otherwise nothing changes. |
| JsonValues.Utf8Decodes | system-shell/src/json.c:245-274 | The encoding is that of section 3 of RFC 3629: it decodes to the code point, is the shortest, and is missing only for NUL and surrogates. |
| JsonValues.CopyPiece | system-shell/src/json.c:285-320 | One character or escape is decoded and appended exactly if it can be and fits. |
| JsonValues.CopyString | system-shell/src/json.c:276-323 | Succeeds exactly if the token is a string whose body decodes and fits with its NUL, and leaves those bytes. |
| JsonValues.LongEscape | system-shell/src/json.c:296-304 | Wherever it stands, `\u` with four hexadecimal digits decodes to the UTF-8 of the character with that number. |
| JsonValues.ShortEscapeIsLong | system-shell/src/json.c:307-314 | Each of the eight short escapes of section 7 of RFC 8259 decodes like its own long form. |
| JsonValues.HexCaseIgnored | system-shell/src/json.c:236-243 | Two long escapes whose digits differ only in case decode alike. |
| JsonValues.PlainCharacter | system-shell/src/json.c:276-323 | Any other character stands for itself; a backslash before NUL makes the copy fail. |
| JsonValues.GetU64 | system-shell/src/json.c:325-342 | Accepts exactly the unsigned decimals below 2^64, with their value. |
| Buffers.ByteBuffer.AppendBytes | app-runtime/src/broker_client.c:60-67 | Appends exactly when there is room; otherwise the contents stay. |
| Provision.AppendJsonString | system-shell/src/provision_client.c:54-83 | Appends the quoted, escaped text exactly when it fits. |
| Provision.BeginCommand | system-shell/src/provision_client.c:508-519 | The opening of a request, if it leaves a byte free. |
| Provision.AppendMember | system-shell/src/provision_client.c:521-528 | Appends one named string exactly when it fits. |
| Provision.FinishCommand | system-shell/src/provision_client.c:530-533 | Closes the request and ends its line exactly when that fits. |
| Provision.BuildRequest | system-shell/src/provision_client.c:508-533 | Any number of members: a request is built exactly if the whole message fits, and is then that message. |
| Provision.EscapeUnescapes | system-shell/src/provision_client.c:54-83 | Escaping any NUL-free text and decoding it as the tokenizer's string body gives the text back. |
| Provision.RequestText | system-shell/src/provision_client.c:508-533 | A message is the text of a tree with its fields under `command`. |
| Provision.RequestParses | system-shell/src/provision_client.c:508-533 | Every message tokenizes, to that tree. |
| Provision.FieldReadsBack | system-shell/src/provision_client.c:521-528 | Looking a field up under `command` and copying it out returns the bytes that were put in. |
| Provision.NameReadsBack | system-shell/src/provision_client.c:508-519 | The command name of every printed request is found again. |
| Provision.IdReadsBack | system-shell/src/provision_client.c:508-519 | So is its number, as a primitive with that decimal value. |
| Provision.DigitsRead | system-shell/src/json.c:325-345 | Printing a number and reading its digits gives the number. |
| Provision.RequestIsOneLine | system-shell/src/provision_client.c:530-533 | The only newline of a message is its last byte. |
| Base64.AppendBase64 | app-runtime/src/broker_client.c:89-111 | Appends the encoding exactly when it fits. |
| Base64.EncodeRound | app-runtime/src/broker_client.c:94-107 | The shifts, masks and padding of one round are the digits of the 24-bit group. |
| Base64.Encode | app-runtime/src/broker_client.c:89-111 | The length is four times a third of the input, rounded up. |
| Base64.DecodeRound | app-runtime/src/broker_client.c:492-517 | One group is decoded, with all padding and capacity checks. |
| Base64.DecodeBase64 | app-runtime/src/broker_client.c:482-521 | Succeeds exactly on canonical text of at most the protocol's length whose value fits, and leaves that value. |
| Base64.EncodeDecodes | app-runtime/src/broker_client.c:482-521 | Decoding inverts encoding on every input. |
| Base64.DecodeEncodes | app-runtime/src/broker_client.c:482-521 | Any text that decodes is the encoding of what it decodes to. |
| Base64.Bijection | app-runtime/src/broker_client.c:468-521 | Both directions: a text decodes to a value exactly if it is the value's encoding. |
| Broker.AppendString | app-runtime/src/broker_client.c:69-87 | Appends the quoted, escaped text exactly if it has no control characters and fits. |
| Broker.ValidStorageKey | app-runtime/src/broker_client.c:1092-1107 | Accepts exactly 1 to 64 letters, digits, dots, underscores and hyphens not starting with a dot. |
| Broker.BuildPlayAudio | app-runtime/src/broker_client.c:709-728 | The argument checks alone decide: the buffer never runs out, and the request is the whole message. |
| Broker.BuildPlayStereo | app-runtime/src/broker_client.c:759-781 | The same for 48 kHz stereo up to 7680 bytes. |
| Broker.BuildStoragePut | app-runtime/src/broker_client.c:1109-1131 | The same for a put of up to 8192 bytes; its internal error never happens. |
| Broker.BuildIntentSend | app-runtime/src/broker_client.c:1552-1578 | The same for a send in its 2048-byte buffer. |
| Broker.PutReadsBack | app-runtime/src/broker_client.c:1109-1131 | A put request is one line, tokenizes, and gives back its number, its command name, its key and, decoded, its value. |
| Broker.SendReadsBack | app-runtime/src/broker_client.c:1552-1578 | The same for the number, name, action and payload of a send request. |
| Broker.PlayReadsBack | app-runtime/src/broker_client.c:709-781 | Both play requests are one line and give back their number, their command name and, decoded, their samples. |
| Identifiers.IdentifierParts | system-shell/src/appd_client.c:203-230 | A text is an identifier (three or more labels of 1 to 32 bytes joined by dots) exactly if its own dot-separated parts are. |
| Identifiers.ValidAppId | system-shell/src/appd_client.c:203-230 | The one-pass scan accepts exactly the identifiers of at most 128 bytes. |
| Identifiers.ValidIntentAction | app-runtime/src/broker_client.c:1524-1550 | The one-pass scan accepts exactly the identifiers of at most 96 bytes, so the two scanners agree there. |
| Identifiers.SanitizeAppId | compositor-policy/cardputerzero-policy.c:330-348 | The loop gives 1 to 128 safe or replaced characters. |
| Identifiers.SanitizeKeepsIdentifiers | compositor-policy/cardputerzero-policy.c:330-348 | Every id that appd accepts passes unchanged. |
| Identifiers.SanitizePasses | compositor-policy/cardputerzero-policy.c:330-348 | A text passes unchanged exactly if it has 1 to 128 bytes, all of the allowed ones or the mark itself. |
| Identifiers.SanitizeMarks | compositor-policy/cardputerzero-policy.c:330-348 | Byte by byte the text is kept or marked, and a missing or empty one becomes the fallback id. |
| AppTokens.AllocateIsNth | compositor-policy/cardputerzero-policy.c:309-328 | The search takes at most one step more than there are tokens in use, wrap-around included. |
| AppTokens.AllocateFresh | compositor-policy/cardputerzero-policy.c:309-328 | It ends at a nonzero token not in use whenever fewer than 2^32 - 1 are. |
| AppTokens.AllocateToken | compositor-policy/cardputerzero-policy.c:309-328 | The loop terminates and returns that token. |
| AppTokens.IsHeld | compositor-policy/cardputerzero-policy.c:318-324 | The scan of the watches finds a collision exactly if there is one. |
| Policy.CompositorPolicy.ReassertLayers | compositor-policy/cardputerzero-policy.c:219-253 | Every mapped, watched view of a desktop tree is moved to the layer prescribed for it; no other view is. |
| Policy.CompositorPolicy.SetOverlayMode | compositor-policy/cardputerzero-policy.c:276-297 | The mode is set and the layers are reasserted at once. |
| Policy.CompositorPolicy.AllocateAppToken | compositor-policy/cardputerzero-policy.c:309-328 | The counter moves to a token no watch holds. |
| Policy.CompositorPolicy.AnnounceApp | compositor-policy/cardputerzero-policy.c:387-429 | Announces a mapped application root once to a shell of version 2 or more, with the events its version knows. |
| Policy.CompositorPolicy.AnnounceApps | compositor-policy/cardputerzero-policy.c:431-438 | The same for every watch in turn. |
| Policy.CompositorPolicy.WithdrawApp | compositor-policy/cardputerzero-policy.c:440-456 | An announced watch loses its token and the shell is told. |
| Policy.CompositorPolicy.RegisterBootSplash | compositor-policy/cardputerzero-policy.c:458-471 | The first surface of the splash user with the splash id becomes the splash. |
| Policy.CompositorPolicy.SurfaceCommitted | compositor-policy/cardputerzero-policy.c:458-492 | The handler is the step `Committed`, and the invariant holds after it. |
| Policy.CompositorPolicy.SurfaceDestroyed | compositor-policy/cardputerzero-policy.c:494-529 | The handler is the step `Destroyed`, and the invariant holds after it. |
| Policy.CompositorPolicy.SurfaceCreated | compositor-policy/cardputerzero-policy.c:531-550 | The handler is the step `Created`, and the invariant holds after it. |
| Policy.CompositorPolicy.ReassertIdle | compositor-policy/cardputerzero-policy.c:255-263 | The idle callback is the step `IdleReached`, and the invariant holds after it. |
| Policy.CompositorPolicy.ShellResourceDestroyed | compositor-policy/cardputerzero-policy.c:552-566 | The handler is the step `Unbound`, and the invariant holds after it. |
| Policy.CompositorPolicy.RegisterSurface | compositor-policy/cardputerzero-policy.c:575-622 | The request is the step `Registered`, and the invariant holds after it. |
| Policy.CompositorPolicy.ShellSetVisible | compositor-policy/cardputerzero-policy.c:624-638 | The request is the step `VisibleSet`, and the invariant holds after it. |
| Policy.CompositorPolicy.ShellSetOverlayMode | compositor-policy/cardputerzero-policy.c:640-656 | The request is the step `OverlaySet`, and the invariant holds after it. |
| Policy.CompositorPolicy.ActivateApp | compositor-policy/cardputerzero-policy.c:690-716 | The request is the step `Activated`, and the invariant holds after it. |
| Policy.CompositorPolicy.BindSystemShell | compositor-policy/cardputerzero-policy.c:749-783 | The bind is the step `Bound`, and the invariant holds after it. |
| Policy.CompositorPolicy.DispatchSystemAction | compositor-policy/cardputerzero-policy.c:824-844 | The key action is the step `ActionTaken`, with the transient overlay target, and the invariant holds after it. |
| PolicyInvariants.StepKeeps | compositor-policy/cardputerzero-policy.c:458-783 | Every step keeps the invariant: one watch per surface, distinct tokens, a stream that matches the announced watches, and views in their layers or a pass queued. |
| PolicyInvariants.ReachableInv | compositor-policy/cardputerzero-policy.c:219-297 | So it holds in every reachable state: in each shell session the tokens added minus those removed are the tokens of the announced watches, and announced implies a bound shell of version 2 or more. |
| PolicyInvariants.ShownViews | compositor-policy/cardputerzero-policy.c:219-253 | With no pass queued every view of the desktop is in the trusted layer exactly if it is the shell\'s and the mode is not hidden, in the splash layer exactly if it is the splash\'s and the shell is unmapped, in the app layer exactly if it is the active application\'s and the mode is not full, and otherwise in the hidden layer. |
| PolicyInvariants.OneApplicationShown | compositor-policy/cardputerzero-policy.c:219-253 | Any two views in the app layer belong to the same application. |
| PolicyInvariants.ModeStep | compositor-policy/cardputerzero-policy.c:458-716 | A step keeps "outside full mode there is an active surface" exactly unless it is `set_visible(0)` with none active. |
| PolicyInvariants.RunModeBacked | compositor-policy/cardputerzero-policy.c:458-844 | So that holds in every run without `set_visible(0)`. |
| PolicyInvariants.HiddenWithoutActive | compositor-policy/cardputerzero-policy.c:624-638 | A reachable state where it fails: a shell that binds and hides itself. |
| PolicyTheorems.AnnounceTells | compositor-policy/cardputerzero-policy.c:387-429 | An announcement keeps the application's token or gives an unused one, then tells its account exactly from version 7 on and its mode exactly from version 3 on; an application is immersive unless its title says standard. |
| PolicyTheorems.IdleAnnounces | compositor-policy/cardputerzero-policy.c:255-263 | A pass announces exactly the mapped applications, besides those announced before, to a shell of version 2 or more. |
| PolicyTheorems.BindAnnounces | compositor-policy/cardputerzero-policy.c:749-783 | A shell is bound exactly if it is trusted and none is; from version 2 exactly the mapped applications are announced to it, below nothing is sent. |
| PolicyTheorems.CommitAnnounces | compositor-policy/cardputerzero-policy.c:458-492 | After a commit an application root is announced exactly if it is mapped and a shell listens; losing the active one brings the full mode and the home action; the splash is the first surface that looks like it. |
| PolicyTheorems.ActivationShows | compositor-policy/cardputerzero-policy.c:690-716 | Exactly a token of an announced, mapped application activates: that application becomes active, in the mode it asked for, and all its views are on screen; otherwise the failure is reported and nothing changes. |
| PolicyTheorems.OverlayRequest | compositor-policy/cardputerzero-policy.c:640-656 | A mode is set exactly if it exists and is full or has an active application, which is then on screen. |
| PolicyTheorems.VisibleRequest | compositor-policy/cardputerzero-policy.c:624-638 | 1 is the full mode, 0 the hidden one, anything else changes nothing. |
| PolicyTheorems.RegisterRequest | compositor-policy/cardputerzero-policy.c:575-622 | The exact condition for a surface to become the shell's; it is then never announced, and the mode is full. |
| PolicyTheorems.ActionRequest | compositor-policy/cardputerzero-policy.c:824-844 | Which actions reach the shell, and in which mode each leaves the display. |
| PolicyTheorems.ShellGone | compositor-policy/cardputerzero-policy.c:552-566 | Nothing stays announced, the mode is full, and every token is kept for the next shell. |
| PolicyTheorems.SurfaceGone | compositor-policy/cardputerzero-policy.c:494-529 | Every reference to the surface is dropped, and no other; losing the active or the shell's surface brings the full mode. |
| PolicyTheorems.OthersLeft | compositor-policy/cardputerzero-policy.c:219-253 | No request, action or pass moves a surface that is no mapped part of a desktop tree. |
| PolicyTheorems.NothingSent | compositor-policy/cardputerzero-policy.c:440-566 | Without a shell no handler sends anything. |
| ShellBindings.SurfaceTable.FindBinding | system-shell/src/main.c:221-229 | The first binding with the token, or the count. |
| ShellBindings.SurfaceTable.RememberSurface | system-shell/src/main.c:231-246 | The token is bound to the app id, in its old place or a new one while there is room for 32. |
| ShellBindings.SurfaceTable.ForgetSurface | system-shell/src/main.c:248-263 | The token's binding is removed and the order of the others kept. |
| ShellBindings.SurfaceTable.HandleIdentity | system-shell/src/main.c:2884-2901 | A nonzero account is entered in the token's binding. |
| ShellBindings.SurfaceTable.HandleEvent | system-shell/src/main.c:2799-2901 | Every event of the stream does to the table what the mirror function does. |
| ShellBindings.MirrorFaithful | system-shell/src/main.c:221-263 | After any well-formed stream the bindings are distinct, of live tokens, each with the id announced for it and the last nonzero account announced for it, or 0. |
| ShellBindings.MirrorComplete | system-shell/src/main.c:231-246 | They are all the live tokens if never more than 32 were alive and no activation failed. |
| ShellBindings.BindingsFollowCompositor | system-shell/src/main.c:2799-2825 | Both hold for every prefix of the events of every reachable compositor state. |
| ShellBindings.BindingsAreAnnounced | system-shell/src/main.c:2799-2825 | With the stream read to its end, every bound token is one of an announced watch, and the bound tokens are exactly those if at most 32 were alive and no activation failed. |
| Wake.WakeControl.Handle | compositor-policy/wake-key.c:23-38 | The new key state and the fate of the event are those of the specification. |
| Wake.WakeControl.FinishGrab | compositor-policy/cardputerzero-policy.c:113-121 | The grab is given back if it is the policy's own, and the key state disarmed. |
| Wake.WakeControl.OnGrabKey | compositor-policy/cardputerzero-policy.c:123-135 | A key under the grab is one step. |
| Wake.WakeControl.ArmGrab | compositor-policy/cardputerzero-policy.c:165-178 | The grab is installed only over the default grab. |
| Wake.WakeControl.BacklightSleep | compositor-policy/backlight-state.c:55-73 | Reads, saves and dims, with every file failure. |
| Wake.WakeControl.BacklightWake | compositor-policy/backlight-state.c:75-86 | Writes the saved value back. |
| Wake.WakeControl.PutDisplayToSleep | compositor-policy/cardputerzero-policy.c:180-191 | Going to sleep is one step. |
| Wake.WakeControl.CompositorWoke | compositor-policy/cardputerzero-policy.c:943-963 | Waking is one step. |
| Wake.RunInv | compositor-policy/cardputerzero-policy.c:113-191 | In every run the key state is armed exactly while the grab is installed, and a sleeping display has a saved brightness. |
| Wake.SleepKeepsSaved | compositor-policy/backlight-state.c:55-73 | However a sleeping display is asked to sleep again, the saved brightness stays. |
| Wake.SleepDims | compositor-policy/cardputerzero-policy.c:180-191 | The exact condition for a lit display to go dark, and what is saved when it does. |
| Wake.WakeLights | compositor-policy/backlight-state.c:75-86 | A dark display lights up, at the saved brightness, exactly if its file can be written. |
| Wake.WakeRestores | compositor-policy/backlight-state.c:75-86 | After any run in the dark, waking restores the brightness from before the sleep. |
| Wake.GrabEndsAtRelease | compositor-policy/cardputerzero-policy.c:113-163 | Over any run of sleep, key, wake and other events under a fresh grab, up to the event that ends it, the grab stays installed, remembers the first key pressed and swallows every key; of key events exactly the release of that key ends it, of the others exactly a cancellation and a wake with no key held. |
| Wake.GrabStartsFresh | compositor-policy/cardputerzero-policy.c:165-178 | In every run each grab starts with a request to sleep and no key remembered, so the theorem above covers every grab of every run. |
| Wake.GrabTaken | compositor-policy/cardputerzero-policy.c:165-178 | Another party that takes the keyboard keeps "armed exactly while installed" exactly if it does not take it from the wake grab. |
| Pixels.XrgbNarrows | app-runtime/src/pixels.c:3-13 | Widening loses nothing: cutting the result back to five, six and five bits gives the pixel. |
| Pixels.XrgbScales | app-runtime/src/pixels.c:3-13 | Each channel is its own range scaled to that of a byte: less than one step off the exact ratio, and black and full exactly. |
| Pixels.PixelShown | app-runtime/src/pixels.c:39-57 | Column x of content row y shows the two bytes of that pixel of the frame, low byte first. |
| Pixels.XrgbInjective | app-runtime/src/pixels.c:3-13 | Different pixels get different colours. |
| Pixels.DamageIsValid | app-runtime/src/pixels.c:15-37 | Accepts exactly up to 32 non-empty rectangles inside a content of one of the two heights. |
| Pixels.ConvertRectangle | app-runtime/src/pixels.c:39-57 | The nested loops convert exactly the positions inside the rectangle. |
| Pixels.Convert | app-runtime/src/pixels.c:59-78 | Exactly the positions some rectangle covers, or the whole content without rectangles. |
| Pixels.ConvertedAppend | app-runtime/src/pixels.c:75-77 | Rectangles one after the other do what they do together, overlaps included. |
| Pixels.FullConversion | app-runtime/src/pixels.c:71-74 | A full conversion over zero status rows gives the frame's screen, whatever was there. |
| Pixels.IncrementalIsFull | app-runtime/src/pixels.c:59-78 | On a screen that shows the old frame, converting the damage shows the new frame exactly if the frames agree outside the damage. |
| FramePacing.FramePacer.IsReady | app-runtime/src/frame_pacing.c:5-14 | Ready before the first commit and an interval after the last one; not when the clock went back. |
| FramePacing.FramePacer.MarkCommitted | app-runtime/src/frame_pacing.c:16-22 | The commit time is remembered. |
| FramePacing.FramePacer.Reset | app-runtime/src/frame_pacing.c:24-29 | Back to the state without a commit. |
| FramePacing.PacedRate | app-runtime/src/frame_pacing.h:7-8 | Times the pacer lets pass increase, and no closed second holds more than 30. |
| InputQueue.Ring.Reset | app-runtime/src/input_queue.c:8-10 | Empty, no overflow. |
| InputQueue.Ring.Push | app-runtime/src/input_queue.c:12-34 | Appends the event while fewer than 32 wait, else marks an overflow and keeps the rest. |
| InputQueue.Ring.Pop | app-runtime/src/input_queue.c:36-44 | Hands out the oldest event, if any. |
| InputQueue.Ring.TakeOverflow | app-runtime/src/input_queue.c:46-50 | Reports the mark and clears it. |
| Display.DecodeRectangles | app-runtime/src/display.c:483-501 | The loop decodes the damage bytes, or fails on a bad length or rectangle. |
| DisplayTheorems.DamageRoundTrip | app-runtime/src/display.c:479-501 | Bytes decode to a list of rectangles exactly if the list is valid and the bytes are its little-endian form. |
| Display.AppDisplay.constructor | app-runtime/src/display.c:382-390 | A display with its surface has a blank shadow, free buffers and an empty queue, in one of two modes. |
| Display.AppDisplay.FinishInitialize | app-runtime/src/display.c:427-433 | The last round trips may bring focus, keys and other events before the session starts; it starts exactly if the surface was configured and nothing failed the display. |
| Display.AppDisplay.HandleKey | app-runtime/src/display.c:175-198 | A key is pushed only while focused and with a 16-bit code. |
| Display.AppDisplay.HandleRelease | app-runtime/src/display.c:314-318 | The released buffer is free again. |
| Display.AppDisplay.HandleCapabilities | app-runtime/src/display.c:232-249 | Losing the keyboard clears focus and queue. |
| Display.AppDisplay.HandleConfigure | app-runtime/src/display.c:286-301 | A wrong size fails the display. |
| Display.AppDisplay.HandleEvent | app-runtime/src/display.c:145-318 | Every compositor event is one step. |
| Display.AppDisplay.DispatchPending | app-runtime/src/display.c:530-531 | A dispatch is its events in order. |
| Display.AppDisplay.AvailableBuffer | app-runtime/src/display.c:503-511 | The first buffer that is not busy. |
| DisplayModel.Available | app-runtime/src/display.c:503-511 | There is one exactly if some buffer is not busy, and all before it are. |
| Display.AppDisplay.ShowFrame | app-runtime/src/display.c:542-564 | Shadow, chosen buffer, damage, first-frame flag and pacer change as one commit; the other buffer does not. |
| Display.AppDisplay.PresentDispatched | app-runtime/src/display.c:530-569 | What follows the dispatch: buffer, clock, pacer, commit and flush, with every result code. |
| Display.AppDisplay.PresentFrame | app-runtime/src/display.c:513-570 | The call is one step with its result code, every early return included. |
| Display.AppDisplay.WaitForEvents | app-runtime/src/display.c:572-613 | A wait dispatches its events and tells whether the display still works. |
| Display.AppDisplay.PollKeyEvent | app-runtime/src/display.c:615-638 | The call is one step with its result code and event. |
| Display.AppDisplay.TakeEvent | app-runtime/src/display.c:622-637 | An overflow is reported before any event is handed out. |
| DisplayInvariants.StepKeeps | app-runtime/src/display.c:513-638 | Every call keeps the shadow equal to the last commit, busy buffers equal to their commits, pacing, and the key log in order. |
| DisplayInvariants.Run | app-runtime/src/display.c:513-638 | So these hold after every session of calls, whatever events arrived before the first one. |
| DisplayTheorems.CommitShowsFrame | app-runtime/src/display.c:541-546 | A commit over a screen that shows its frame shows its own exactly if the change was declared. |
| DisplayTheorems.SessionShows | app-runtime/src/display.c:541-546 | In every session all committed screens equal the full conversion of their frames exactly if every frame differs from the one before only inside its damage. |
| DisplayTheorems.StaleScreen | app-runtime/src/display.c:541-546 | A session whose second frame changes more than it declares, and whose second screen therefore does not show it. |
| DisplayTheorems.SessionDamage | app-runtime/src/display.c:548-560 | Declared or not, status rows are zero and nothing changes outside the damage sent. |
| DisplayTheorems.DamageIsDeclared | app-runtime/src/display.c:548-560 | A commit's damage covers a pixel exactly if the app declared it, declared nothing, or it is the first commit. |
| DisplayTheorems.PresentReturns | app-runtime/src/display.c:513-570 | At any point of a session, the exact condition for each result of a present. |
| DisplayTheorems.SessionRate | app-runtime/src/display.c:535-564 | In every session commit times increase and no closed second holds more than 30 commits. |
| DisplayTheorems.PresentShows | app-runtime/src/display.c:542-569 | A present that returns 0 commits its frame, and the buffer with that screen is now busy. |
| DisplayTheorems.BusyHoldsCommit | app-runtime/src/display.c:561-562 | In every session a buffer is busy exactly from its commit to its release, and holds what was committed. |
| DisplayTheorems.BusyNeverWritten | app-runtime/src/display.c:532-534 | A present leaves a busy buffer alone unless it is released while the call dispatches. |
| DisplayTheorems.SessionKeys | app-runtime/src/input_queue.c:8-50 | In every session, between resets, events handed out are the accepted ones in order with at most 32 waiting; keys drop only when 32 wait; and between a dropped key and the next event there is a report or a reset. |
| DisplayTheorems.KeyRecorded | app-runtime/src/display.c:175-198 | A key under focus is recorded as it came, and dropped exactly if 32 wait; without focus nothing is recorded. |
| DisplayTheorems.FocusHandled | app-runtime/src/display.c:145-249 | Exactly which events give, take and reset the focus and the queue. |
| DisplayTheorems.DispatchFails | app-runtime/src/display.c:286-307 | Dispatching any events leaves the display failed exactly if it was or one of them closes it or gives it another size. |
| DisplayTheorems.PresentFails | app-runtime/src/display.c:513-570 | A present leaves it failed exactly if it was, an event of the call broke it, or its frame was committed and not flushed. |
| DisplayTheorems.WaitReturns | app-runtime/src/display.c:572-613 | The exact condition for a wait to succeed; a refused one changes nothing. |
| DisplayTheorems.PollLogs | app-runtime/src/display.c:615-638 | Results and log agree: 1 is a delivery, -4 a report, and no other poll is either. |
| DisplayTheorems.PollReturns | app-runtime/src/display.c:615-638 | At any point of a session, what a poll returns, before and after the wait: the report owed, else the oldest waiting key, else nothing, or the error. |
| Documents.Receive | app-runtime/src/broker_client.c:238-308 | However the exchange ends, the ledger balances and only the descriptor handed to the caller is left open; a failure hands out none. |
| Documents.ControlKeeps | app-runtime/src/broker_client.c:260-287 | Whatever a control header carries, each of its descriptors is closed or becomes the one held. |
| Documents.DecodeKeeps | app-runtime/src/broker_client.c:645-685 | A reply passes its descriptor on or closes it, and an error passes none. |
| Documents.Fetch | app-runtime/src/broker_client.c:687-707 | The same for exchange and reply together: only the descriptor passed on is left open beside the active document. |
| Documents.OpenKeeps | app-runtime/src/document.c:21-45 | A good open is the next one, returns its handle and size and closes the document before it; any other leaves the document as it was. |
| Documents.DestroyKeeps | app-runtime/src/document.c:84-89 | The active descriptor is closed once. |
| Documents.DescriptorsConserved | app-runtime/src/document.c:21-89 | In every run the descriptors received are those closed plus the one active document. |
| Documents.HandleShared | app-runtime/src/document.c:40-43 | Two opens share a handle exactly if a multiple of 2^31 - 1 opens lies between them. |
| Documents.HandleAccepted | app-runtime/src/document.c:52-53 | The handle of an earlier open is accepted exactly if a document is open and the count of opens came round. |
| Documents.StaleHandle | app-runtime/src/document.c:21-82 | The same after any run behind an open, for the handle that open returned. |
| Documents.ReadStaysInside | app-runtime/src/document.c:47-69 | A read neither asks for nor returns bytes past the recorded size. |
| DocumentTheorems.ReceiveAnswers | app-runtime/src/broker_client.c:238-308 | However the reply is cut into packets, an exchange succeeds exactly if one of them completes the line, all up to it are usable, and at most one descriptor came: that one is handed out. |
| DocumentTheorems.ReceiveRecords | app-runtime/src/broker_client.c:238-308 | However it ends, an exchange has received exactly the descriptors of the packets it read: those up to the first that is unusable, brings a second descriptor, or ends or fills the line. |
| DocumentTheorems.OpenSucceeds | app-runtime/src/document.c:21-45 | An open succeeds with a descriptor exactly if the broker was reached, the reply arrived as one line with that descriptor, it is good, and the file is regular, of that size and read-only. |
| DocumentTheorems.OpenReturns | app-runtime/src/document.c:21-45 | Which error a failed open returns: that of the connection, the broker's own once its reply arrived, or the internal one. |
| DocumentTheorems.OpenRecords | app-runtime/src/document.c:21-45 | So has every open, whatever it returns; with `Documents.DescriptorsConserved`, each of them is closed once or is the open document. |
| DocumentTheorems.ReadGets | app-runtime/src/document.c:47-69 | A read with the right handle gets all the file has there, up to the room and the size. |
| DocumentTheorems.ClosedRefuses | app-runtime/src/document.c:71-89 | A close with its handle, and a destroy, leave no handle that reads; any other close changes nothing. |
| DocumentStore.DescriptorTable.CloseOne | app-runtime/src/broker_client.c:299-303 | Closing needs an open descriptor, so nothing is closed twice. |
| DocumentStore.DescriptorTable.CloseArrived | app-runtime/src/broker_client.c:269-277 | The loop closes every descriptor of an unwanted header. |
| DocumentStore.DescriptorTable.TakeHeader | app-runtime/src/broker_client.c:260-287 | One control header is handled as the specification says. |
| DocumentStore.DescriptorTable.ReceiveOne | app-runtime/src/broker_client.c:238-298 | One round of the receive loop. |
| DocumentStore.DescriptorTable.Finish | app-runtime/src/broker_client.c:295-308 | The last check and the cleanup. |
| DocumentStore.DescriptorTable.ReceiveResponse | app-runtime/src/broker_client.c:238-308 | The loop and its exits are the specification's exchange. |
| DocumentStore.Store.Decode | app-runtime/src/broker_client.c:645-685 | The reply is decoded as the specification says, its id byte by byte. |
| DocumentStore.Store.FetchDocument | app-runtime/src/broker_client.c:687-707 | Exchange and decoding in sequence. |
| DocumentStore.Store.OpenDocument | app-runtime/src/document.c:21-45 | The call is the specification's open, state and result. |
| DocumentStore.Store.ReadDocument | app-runtime/src/document.c:47-69 | The result is the specification's. |
| DocumentStore.Store.CloseHandle | app-runtime/src/document.c:71-82 | The call is the specification's close, and the invariant holds after it. |
| DocumentStore.Store.DestroyDocument | app-runtime/src/document.c:84-89 | The call is the specification's destroy, and the invariant holds after it. |
| Thumbnails.RunSafe | system-shell/src/main.c:319-354 | In every run occupied slots have different ids, each of a listed task with the slot's generation unless the task's is 0; a capture is busy exactly with a purpose and exactly with a buffer; and it issues at most three requests. |
| Thumbnails.StepKeeps | system-shell/src/main.c:1545-1781 | Every callback keeps the invariant behind that. |
| Thumbnails.SlotAvailable | system-shell/src/main.c:319-337 | By counting, a listed task always has a slot or a free one. |
| Thumbnails.CompleteStores | system-shell/src/main.c:1584-1612 | So a capture that completes while current ends up in its task's slot, with a nonzero stamp. |
| ThumbnailTheorems.SlotLifetime | system-shell/src/main.c:339-354 | Over any run a stored thumbnail stays as it is exactly until a list lacks its task or has it under another generation, or a newer capture of it completes. |
| ThumbnailTheorems.SlotStep | system-shell/src/main.c:339-354 | What any one event makes of a stored slot. |
| ThumbnailTheorems.FreeSlotStep | system-shell/src/main.c:1584-1612 | A free slot is filled only by a completed capture of a task that is still current, and for that task. |
| ThumbnailTheorems.NewNumber | system-shell/src/main.c:1584-1612 | In every run short of 2^64 events a new thumbnail has a higher number than any slot ever had. |
| ThumbnailTheorems.SourceDescribed | system-shell/src/main.c:1614-1631 | A new source can be captured once both described, and exactly in one size and two formats. |
| ThumbnailTheorems.SourceGone | system-shell/src/main.c:3294-3339 | A second source is ignored; a removed one ends its capture, and nothing described later can be captured. |
| ThumbnailTheorems.ListArrives | system-shell/src/main.c:787-795 | A list that arrives replaces the task list, a failed poll changes nothing. |
| ThumbnailTheorems.ScreenshotStarts | system-shell/src/main.c:1726-1750 | The exact condition for a screenshot to start. |
| ThumbnailTheorems.ThumbnailStarts | system-shell/src/main.c:1752-1781 | The exact condition for a thumbnail capture to start, and of which task. |
| ThumbnailTheorems.RetryGoesOn | system-shell/src/main.c:1663-1682 | A capture is requested again exactly if fewer than three requests were made, the source still fits and there is a buffer. |
| TaskCapture.Capture.TaskSummary | system-shell/src/main.c:309-317 | The first task with the id. |
| TaskCapture.Capture.ClaimSlot | system-shell/src/main.c:319-337 | The task's slot, or else the first free one. |
| TaskCapture.Capture.Reconcile | system-shell/src/main.c:339-354 | The loop clears exactly the slots whose task is gone or runs anew. |
| TaskCapture.Capture.PollCatalog | system-shell/src/main.c:787-795 | A good list replaces the old one and the slots follow. |
| TaskCapture.Capture.IssueCapture | system-shell/src/main.c:1545-1558 | A request is issued exactly if source, size and format fit and there is a buffer. |
| TaskCapture.Capture.IsCurrent | system-shell/src/main.c:1571-1582 | Current exactly if the task is still listed, in front, of the same generation, visible and bound. |
| TaskCapture.Capture.FinishCapture | system-shell/src/main.c:1584-1612 | A current capture is stored with a stamp that skips zero, and the capture becomes idle. |
| TaskCapture.Capture.CaptureComplete | system-shell/src/main.c:1633-1661 | The callback is one step. |
| TaskCapture.Capture.CaptureRetry | system-shell/src/main.c:1663-1682 | The callback is one step, giving up after two retries. |
| TaskCapture.Capture.StartScreenshot | system-shell/src/main.c:1726-1750 | The request is one step. |
| TaskCapture.Capture.FindCandidate | system-shell/src/main.c:1760-1769 | The first running task in front with a surface. |
| TaskCapture.Capture.StartThumbnail | system-shell/src/main.c:1752-1781 | The attempt is one step. |
| TaskCapture.Capture.RemoveSource | system-shell/src/main.c:3294-3339 | Losing the output or the factory ends the capture. |
| Seccomp.ChainDecides | app-runtime/src/seccomp.c:23-25 | For any list and any place in a program, the chain of pairs allows exactly the listed calls and otherwise goes on behind itself. |
| Seccomp.HeaderDecides | app-runtime/src/seccomp.c:29-43 | The ten instructions in front kill foreign architectures and decide `socket` by its family. |
| Seccomp.FilterDecides | app-runtime/src/seccomp.c:27-91 | For any list the whole program ends, with the verdict of its specification, on every architecture, call and argument. |
| Seccomp.InstalledFilterDecides | app-runtime/src/seccomp.c:27-95 | The same for the installed list; the program has 101 instructions. |

## Left out

- Sockets, timeouts, memory mapping, sysfs paths and the Wayland and libweston calls themselves: they are parameters and events of the steps.
- Null pointer arguments: the model's values are never null.
- The policy's keyboard focus, long-press and key-binding tables, logging, screenshot authorization and idle timeout: easy members or effects outside the modelled fields.
- `cp0_overlay_transient_base`: only the transient target is used by the modelled handlers.
- The rest of system-shell/src/main.c, with its prompts, store, provisioning and power screens: it depends on UI functions that are not part of this model.
- The per-daemon clients and the substring-based field readers of broker_client.c: a document reply enters the model as the fields those readers find.
- The socket that carries an exchange: only descriptors received over it are in the ledger.
- Connecting and tearing down the app display: the model starts where initialization has its surface and ends before the teardown.
- Keyboard tables and key clicks: modifiers and characters are part of the key event.
- The 2x2 averaging of thumbnails: a slot records whose picture it holds, not the pixels.
- Interrupted document reads: the result is that of the read that was not interrupted.
- JsonValues.CopyString: takes only tokens whose string body the tokenizer scanned, which `JsonShape.TokensScanned` proves of every accepted text.
- JsonValues.CopyPiece: the same, for one character or escape of such a body.
- JsonValues.GetU64: takes only tokens that lie inside the document.
- Policy.CompositorPolicy.SetOverlayMode: leaves out the keyboard focus it gives to the shown view, because no modelled handler reads it.
- DocumentStore.Store.OpenDocument: says what state results; that the state keeps the invariant is `Documents.OpenKeeps`.
- The numbers of the listed system calls and the BPF return codes are those of Linux on arm64; the headers that define them are not part of the repository.
- The web consoles and the Rust crates.
