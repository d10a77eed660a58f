# Servo command path of the Pico hand firmware

This project models the command path of a servo-controlled robotic hand driven by a
Raspberry Pi Pico. A desktop UI writes lines such as `arm 120` to the Pico's USB serial
port. The USB task decodes each received chunk, trims it and decides whether it is a reboot
request (`q`, `elf2uf2-term`) or a servo move. Moves go into `SERVO_DEGREES`, a first-in
first-out queue of capacity 64. The main task starts its three servos (thumb, arm, four
fingers) and then loops forever: it takes the oldest request and rotates the servo it names.

Modules:

- `Wrappers`: the `Option` type.
- `RustCore`: the Rust library behaviour the parser depends on, written out on values:
  - `str::from_utf8`, as a real UTF-8 decoder following the well-formed byte table of
    section 3.9 of the Unicode Standard;
  - `char::is_whitespace` (Unicode White_Space) and `u8::is_ascii_whitespace`;
  - `str::trim`, `str::split_whitespace`, `eq_ignore_ascii_case` and `starts_with`;
  - `<u8 as FromStr>::from_str`, with its sign handling and overflow checks.
- `RustCoreLemmas`: properties of those library functions.
- `Usb`: `pico-firmware/src/usb/mod.rs`. It holds `trim_ascii_whitespace`, `Servo` and
  `ServoMoveRequest`, the decision `handle_data` takes on a chunk (`ParseCommand`), the
  bounded queue (`Channel`), and `HandleData`, which sends a decided move into the queue.
- `UsbProperties`, `UsbExamples`: what that decision promises, in general and on concrete
  lines.
- `Firmware`: `firmware/src/main.rs`. It holds the shared servo configuration, the pin of
  each servo, the servos as objects with a running flag and a log of rotations, and the
  dispatch loop (`Controller.Step`, `Controller.Run`), and the two tasks taking turns
  (`Controller.UsbTurn`, `Controller.TakeTurn`, `Controller.Interleave`).

`handle_data` never calls `trim_ascii_whitespace`: it decodes first and then trims the
text with the Unicode `str::trim` (pico-firmware/src/usb/mod.rs:70-71). The two trims
differ on the vertical tab 0x0B, which `str::trim` removes and `trim_ascii_whitespace`
keeps (`UsbProperties.VerticalTabSeparatesTrims`). On any other ASCII input they agree
(`UsbProperties.TrimsAgreeWithoutVerticalTab`).

The servo wiring follows main.rs: the thumb on PIN_2, the four fingers on PIN_3 and the
arm on PIN_4. The help text of the desktop UI (tauri-app/src/App.tsx:75-76) puts the arm
on pin 3 and the fingers on pin 4. The model takes the wiring from the code.

## Model

| member | source | states |
|---|---|---|
| RustCore.DecodeFirst | pico-firmware/src/usb/mod.rs:70 | a decoded sequence takes 1 to 4 bytes, and an ASCII byte decodes alone to the same code |
| RustCore.FromUtf8 | pico-firmware/src/usb/mod.rs:70-72 | a decoded text has no more characters than the chunk has bytes |
| RustCore.AsciiIsUtf8 | pico-firmware/src/usb/mod.rs:70-71 | every ASCII chunk is well-formed UTF-8 and decodes to the characters with the same codes |
| RustCore.AsciiChars | pico-firmware/src/usb/mod.rs:70 | ASCII bytes read as characters keep their length and their codes one for one |
| RustCore.AsciiBytes | tauri-app/src/App.tsx:61-66 | the bytes written for an ASCII string keep its length and codes |
| RustCore.AsciiCharsOfAsciiBytes | tauri-app/src/App.tsx:61-66 | reading back the bytes of an ASCII string gives the string |
| RustCore.TrimStart | pico-firmware/src/usb/mod.rs:71 | the result is a suffix of the input, starts with non-whitespace, and only whitespace was dropped |
| RustCore.TrimEnd | pico-firmware/src/usb/mod.rs:71 | the result is a prefix of the input, ends with non-whitespace, and only whitespace was dropped |
| RustCore.Trim | pico-firmware/src/usb/mod.rs:71 | empty exactly when the text is all whitespace; otherwise starts and ends with non-whitespace and is the contiguous part between a whitespace prefix and a whitespace suffix |
| RustCore.WordLength | pico-firmware/src/usb/mod.rs:43 | the first word ends at the first whitespace character or at the end |
| RustCore.IsAsciiWhitespace | pico-firmware/src/usb/mod.rs:24 | `u8::is_ascii_whitespace`: space, tab, line feed, form feed and carriage return, but not 0x0B; its relation to Unicode whitespace is stated by `UsbProperties.AsciiWhitespaceIsWhitespace` |
| RustCore.IsWhitespace | pico-firmware/src/usb/mod.rs:71 | `char::is_whitespace`, the Unicode White_Space set that `str::trim` and `split_whitespace` use; it agrees with the ASCII test except on 0x0B (`UsbProperties.AsciiWhitespaceIsWhitespace`) |
| RustCore.SplitWhitespace | pico-firmware/src/usb/mod.rs:43 | `split_whitespace`, collected; specified by `RustCoreLemmas.SplitYieldsWords` (every word non-empty and whitespace-free), `RustCoreLemmas.SplitLosesOnlyWhitespace` (only whitespace is dropped, order kept), `RustCoreLemmas.SplitWord` and `RustCoreLemmas.SplitAfterWhitespace` |
| RustCore.EqIgnoreAsciiCase | pico-firmware/src/usb/mod.rs:75-77 | `eq_ignore_ascii_case`: equal length and equal characters after ASCII lower-casing; specified on "q" by `RustCoreLemmas.EqIgnoreCaseQ` and used by `UsbProperties.DecideReset` |
| RustCore.StartsWith | pico-firmware/src/usb/mod.rs:79-91 | `str::starts_with`, case-sensitive; its use is stated by `UsbProperties.DecideMove` and `UsbProperties.KeywordsStartDifferently` |
| RustCore.UnsignedDigits | pico-firmware/src/usb/mod.rs:46 | the text `u8::from_str` reads digits from, after one optional '+'; specified by `RustCoreLemmas.ParseU8Spec` |
| RustCore.AccumulateU8 | pico-firmware/src/usb/mod.rs:46 | the checked multiply-and-add digit loop of `u8::from_str`; specified by `RustCoreLemmas.AccumulateU8Spec` |
| RustCore.ParseU8 | pico-firmware/src/usb/mod.rs:46 | `parse::<u8>().ok()`; specified by `RustCoreLemmas.ParseU8Spec`, `RustCoreLemmas.ParseU8OfDecimal`, `RustCoreLemmas.MinusSignRejected` and `RustCoreLemmas.PlusSignIgnored` |
| RustCore.DigitValue | pico-firmware/src/usb/mod.rs:46 | a decimal digit has a value below ten |
| RustCore.DigitChar | pico-firmware/src/usb/mod.rs:46 | the digit character of a value below ten has that value |
| RustCore.NatToDecimal | tauri-app/src/App.tsx:61 | the decimal rendering of a number is a non-empty string of digits |
| RustCoreLemmas.FoldDigitsGrows | pico-firmware/src/usb/mod.rs:46 | reading more digits never makes the value smaller |
| RustCoreLemmas.AccumulateU8Spec | pico-firmware/src/usb/mod.rs:46 | the checked digit loop succeeds exactly when every character is a digit and the unbounded value fits in a `u8`, and then gives that value |
| RustCoreLemmas.ParseU8Spec | pico-firmware/src/usb/mod.rs:46 | `u8` parsing succeeds exactly when the text, after one optional '+', is a non-empty run of digits whose value is at most 255 |
| RustCoreLemmas.FoldDigitsSnoc | pico-firmware/src/usb/mod.rs:46 | one more digit multiplies the value by ten and adds the digit |
| RustCoreLemmas.DecimalRoundTrip | tauri-app/src/App.tsx:61 | the decimal rendering of a number reads back as that number |
| RustCoreLemmas.ParseU8OfDecimal | pico-firmware/src/usb/mod.rs:46 | the rendering of n parses as a `u8` exactly when n is at most 255, and then as n |
| RustCoreLemmas.LeadingZeroIgnored | pico-firmware/src/usb/mod.rs:46 | a leading zero does not change the parsed value |
| RustCoreLemmas.PlusSignIgnored | pico-firmware/src/usb/mod.rs:46 | a leading '+' before digits does not change the parsed value |
| RustCoreLemmas.MinusSignRejected | pico-firmware/src/usb/mod.rs:46 | nothing that starts with '-' parses as a `u8` |
| RustCoreLemmas.TrimPadded | pico-firmware/src/usb/mod.rs:71 | trimming whitespace + w + whitespace gives w when w starts and ends with non-whitespace |
| RustCoreLemmas.TrimStartPadded | pico-firmware/src/usb/mod.rs:71 | trimming the start of whitespace + w + anything leaves w followed by the rest, when w starts with non-whitespace |
| RustCoreLemmas.TrimIdempotent | pico-firmware/src/usb/mod.rs:71 | trimming twice is trimming once |
| RustCoreLemmas.SplitAllWhitespace | pico-firmware/src/usb/mod.rs:43 | an all-whitespace text has no words |
| RustCoreLemmas.SplitAfterWhitespace | pico-firmware/src/usb/mod.rs:43 | leading whitespace does not change the words |
| RustCoreLemmas.TrimStartAfterWhitespace | pico-firmware/src/usb/mod.rs:71 | trimming the start skips any whitespace prefix |
| RustCoreLemmas.TrimEndBeforeWhitespace | pico-firmware/src/usb/mod.rs:71 | trimming the end skips any whitespace suffix |
| RustCoreLemmas.WordLengthOfWord | pico-firmware/src/usb/mod.rs:43 | a whitespace-free word followed by whitespace or the end is read whole |
| RustCoreLemmas.SplitWord | pico-firmware/src/usb/mod.rs:43 | a word followed by whitespace or the end is the first word, and splitting goes on with the rest |
| RustCoreLemmas.SplitWordThenSeparator | pico-firmware/src/usb/mod.rs:43-46 | a word, then whitespace, then anything: the word comes first and the rest is split on its own |
| RustCoreLemmas.RemoveWhitespaceAppend | pico-firmware/src/usb/mod.rs:43 | dropping whitespace distributes over concatenation |
| RustCoreLemmas.RemoveWhitespaceOfWord | pico-firmware/src/usb/mod.rs:43 | a whitespace-free word loses nothing |
| RustCoreLemmas.SplitYieldsWords | pico-firmware/src/usb/mod.rs:43 | every word `split_whitespace` yields is non-empty and free of whitespace |
| RustCoreLemmas.RemoveLeadingWhitespace | pico-firmware/src/usb/mod.rs:43 | dropping the leading whitespace first does not change the text without its whitespace |
| RustCoreLemmas.RemoveWhitespaceAfterWord | pico-firmware/src/usb/mod.rs:43 | a whitespace-free first word is kept whole in front of the rest without its whitespace |
| RustCoreLemmas.SplitLosesOnlyWhitespace | pico-firmware/src/usb/mod.rs:43 | the words, concatenated, are the text without its whitespace: splitting drops whitespace and nothing else, and keeps the order |
| RustCoreLemmas.AllWhitespaceRemoved | pico-firmware/src/usb/mod.rs:43 | an all-whitespace text loses everything |
| RustCoreLemmas.EqIgnoreCaseQ | pico-firmware/src/usb/mod.rs:75 | a text equals "q" ignoring ASCII case exactly when it is "q" or "Q" |
| Usb.FirstNonWhitespace | pico-firmware/src/usb/mod.rs:24-27 | the first byte that is not ASCII whitespace, with only whitespace before it; None exactly when every byte is whitespace |
| Usb.LastNonWhitespace | pico-firmware/src/usb/mod.rs:28 | the last byte that is not ASCII whitespace, with only whitespace after it; None exactly when every byte is whitespace |
| Usb.TrimAsciiWhitespace | pico-firmware/src/usb/mod.rs:22-30 | empty exactly when every byte is ASCII whitespace; otherwise starts and ends with a non-whitespace byte and is the contiguous slice between a whitespace prefix and a whitespace suffix, bytes and order kept |
| Usb.Keyword | pico-firmware/src/usb/mod.rs:79-91 | the case-sensitive command word of each servo; no line starts with two of them (`UsbProperties.KeywordsStartDifferently`) and none is a reset line's start (`UsbProperties.ResetLineHasNoKeyword`) |
| Usb.ParseDegrees | pico-firmware/src/usb/mod.rs:41-49 | `parse_degrees!`: the second whitespace-separated word parsed as a `u8`, None when it is missing or does not parse; specified by `UsbProperties.ParseDegreesOfTwoWords` and `UsbProperties.OneWordHasNoDegrees` |
| Usb.MoveTo | pico-firmware/src/usb/mod.rs:80-96 | a branch of `handle_data` for one servo: a move of that servo by the parsed degrees, or nothing (the early return); specified by `UsbProperties.DecideMove` |
| Usb.DecideTrimmed | pico-firmware/src/usb/mod.rs:75-97 | the branch chain of `handle_data` on the trimmed text; specified in full by `UsbProperties.DecideReset`, `UsbProperties.DecideMove` and `UsbProperties.DecideNothing` |
| Usb.DecideLine | pico-firmware/src/usb/mod.rs:71-97 | `str::trim`, then the branch chain; whitespace around a line does not change the decision (`UsbProperties.PaddedLineDecided`) |
| Usb.ParseCommand | pico-firmware/src/usb/mod.rs:69-97 | the decision on a whole chunk, total on all bytes: None for ill-formed UTF-8 (`UsbProperties.InvalidUtf8Ignored`, `UsbProperties.StrayLeadByteIgnored`), and the UI's bytes round-trip to their move (`UsbProperties.UiCommandRoundTrip`) |
| Usb.Channel.constructor | pico-firmware/src/usb/mod.rs:62 | the queue starts empty with nothing sent |
| Usb.Channel.Send | pico-firmware/src/usb/mod.rs:81-84 | with room in the queue, the request joins at the back and the queue stays within capacity 64 |
| Usb.Channel.Receive | firmware/src/main.rs:93 | with a request waiting, the oldest one leaves the front, is logged as received, and is the next one sent that was not yet received |
| Usb.Queued | pico-firmware/src/usb/mod.rs:79-97 | a command puts at most one request in the queue: its own request when it is a move, and none for a reset or no command |
| Usb.Enqueue | pico-firmware/src/usb/mod.rs:79-97 | a move's request joins the back of the queue and nothing else changes; a reset or no command leaves the queue as it was |
| Usb.HandleData | pico-firmware/src/usb/mod.rs:69-100 | the command is what the chunk decides; a move is appended at the back of the queue, and a reset or a dropped chunk leaves the queue alone |
| UsbProperties.TrimAsciiUnwrapSucceeds | pico-firmware/src/usb/mod.rs:28 | once a first non-whitespace byte exists, a last one exists too and comes no earlier |
| UsbProperties.TrimAsciiIdempotent | pico-firmware/src/usb/mod.rs:22-30 | trimming an already trimmed slice changes nothing |
| UsbProperties.AsciiWhitespaceIsWhitespace | pico-firmware/src/usb/mod.rs:24 | every ASCII whitespace byte is Unicode whitespace, and the two agree on every ASCII byte except 0x0B |
| UsbProperties.WhitespaceAgreesWithoutVerticalTab | pico-firmware/src/usb/mod.rs:24 | on an ASCII slice without 0x0B the two whitespace tests agree at every position |
| UsbProperties.AsciiCharsSlice | pico-firmware/src/usb/mod.rs:29 | reading a slice as characters is slicing the characters |
| UsbProperties.TrimBetween | pico-firmware/src/usb/mod.rs:71 | `str::trim` returns exactly the part between a whitespace prefix and suffix that starts and ends with non-whitespace |
| UsbProperties.TrimsAgreeBetween | pico-firmware/src/usb/mod.rs:22-30 | when the two whitespace tests agree, the bytes between the whitespace prefix and suffix, read as characters, are what `str::trim` returns |
| UsbProperties.TrimsAgreeWithoutVerticalTab | pico-firmware/src/usb/mod.rs:22-30 | on ASCII without 0x0B, `trim_ascii_whitespace` and `str::trim` give the same text |
| UsbProperties.VerticalTabSeparatesTrims | pico-firmware/src/usb/mod.rs:71 | a lone 0x0B survives `trim_ascii_whitespace` but not `str::trim` |
| UsbProperties.InvalidUtf8Ignored | pico-firmware/src/usb/mod.rs:70-72 | a chunk that is not well-formed UTF-8 yields no command |
| UsbProperties.StrayLeadByteIgnored | pico-firmware/src/usb/mod.rs:70-72 | a chunk starting with a continuation byte, 0xC0, 0xC1 or a byte from 0xF5 is rejected by decoding and yields no command |
| UsbProperties.AsciiCharsAppend | pico-firmware/src/usb/mod.rs:70 | reading two ASCII chunks one after the other reads their concatenation |
| UsbProperties.AsciiChunkDecided | pico-firmware/src/usb/mod.rs:70-71 | an ASCII chunk is decided on the characters with the same codes |
| UsbProperties.KeywordsStartDifferently | pico-firmware/src/usb/mod.rs:79-91 | no line starts with two different servo keywords |
| UsbProperties.ResetLineHasNoKeyword | pico-firmware/src/usb/mod.rs:75-79 | a reset line starts with no servo keyword, so checking reset first hides no move |
| UsbProperties.DecideReset | pico-firmware/src/usb/mod.rs:75-78 | a trimmed line resets exactly when it equals "q" or "elf2uf2-term" ignoring ASCII case |
| UsbProperties.DecideMove | pico-firmware/src/usb/mod.rs:79-96 | a trimmed line yields a given move exactly when it starts case-sensitively with that servo's keyword and its second word parses as that `u8` |
| UsbProperties.DecideNothing | pico-firmware/src/usb/mod.rs:75-97 | a trimmed line yields nothing exactly when it is no reset line and, whatever keyword it starts with, its degrees are missing or do not parse |
| UsbProperties.OneWordHasNoDegrees | pico-firmware/src/usb/mod.rs:43-46 | a line that is a single word has no second word and so no degrees |
| UsbProperties.DecimalHasNoWhitespace | tauri-app/src/App.tsx:61 | a decimal rendering is one word |
| UsbProperties.KeywordHasNoWhitespace | pico-firmware/src/usb/mod.rs:79-91 | a keyword with a whitespace-free continuation is one word |
| UsbProperties.ParseDegreesOfTwoWords | pico-firmware/src/usb/mod.rs:41-49 | the degrees are the second word, whatever the first word is and whatever follows the second |
| UsbProperties.ServoLineDecided | pico-firmware/src/usb/mod.rs:79-96 | keyword + any continuation + whitespace + word + more words yields a move of that servo exactly when the word parses as a `u8`, and then with that value |
| UsbProperties.PaddedLineDecided | pico-firmware/src/usb/mod.rs:71 | whitespace around a line does not change the decision |
| UsbProperties.UiText | tauri-app/src/App.tsx:61 | the UI's text is ASCII and starts and ends with non-whitespace |
| UsbProperties.UiCommand | tauri-app/src/App.tsx:61-66 | the UI's bytes are ASCII and read back as its text |
| UsbProperties.UiTextDecided | pico-firmware/src/usb/mod.rs:79-96 | the UI's text for a servo and n yields a move of that servo by n exactly when n is at most 255, and nothing otherwise |
| UsbProperties.AsciiWhitespaceChars | pico-firmware/src/usb/mod.rs:71 | ASCII whitespace bytes read as Unicode whitespace characters |
| UsbProperties.PaddedChunkDecided | pico-firmware/src/usb/mod.rs:69-97 | a chunk of ASCII whitespace, an ASCII line and ASCII whitespace is decided on the line alone |
| UsbProperties.UiCommandRoundTrip | pico-firmware/src/usb/mod.rs:69-96 | for every servo and every n, the UI's bytes with any ASCII whitespace around them yield a move of that servo by n when n is at most 255, and nothing otherwise |
| UsbExamples.ArmrestMovesArm | pico-firmware/src/usb/mod.rs:79-84 | "armrest 10" moves the arm to 10 |
| UsbExamples.ExtraWordsIgnored | pico-firmware/src/usb/mod.rs:41-49 | "arm 10 20" moves the arm to 10 |
| UsbExamples.PaddedThumbLine | pico-firmware/src/usb/mod.rs:71 | "  thumb 90\r\n" moves the thumb to 90 |
| UsbExamples.UpperCaseKeywordIgnored | pico-firmware/src/usb/mod.rs:79 | "ARM 10" yields nothing |
| UsbExamples.KeywordAloneIgnored | pico-firmware/src/usb/mod.rs:46 | "arm" yields nothing |
| UsbExamples.GluedDegreesIgnored | pico-firmware/src/usb/mod.rs:43-46 | "arm10" yields nothing |
| UsbExamples.TooLargeDegreesIgnored | pico-firmware/src/usb/mod.rs:46-48 | "arm 300" yields nothing |
| UsbExamples.NegativeDegreesIgnored | pico-firmware/src/usb/mod.rs:46-48 | "arm -1" yields nothing |
| UsbExamples.SignedPaddedDegrees | pico-firmware/src/usb/mod.rs:46 | "fingers +007" moves the fingers to 7 |
| UsbExamples.UpperCaseQResets | pico-firmware/src/usb/mod.rs:75-76 | "Q" resets |
| UsbExamples.UpperCaseTermResets | pico-firmware/src/usb/mod.rs:77-78 | "ELF2UF2-TERM" resets |
| UsbExamples.QuitIgnored | pico-firmware/src/usb/mod.rs:75-97 | "quit" yields nothing |
| UsbExamples.UnknownLineIgnored | pico-firmware/src/usb/mod.rs:75-97 | "hello" yields nothing |
| Firmware.SharedConfig | firmware/src/main.rs:59-82 | every servo gets rotation 100 and pulses from 500 to 2500 microseconds, a non-empty range |
| Firmware.PinOf | firmware/src/main.rs:63-82 | each servo's pin is one of PIN_2 to PIN_4 |
| Firmware.PinsDistinct | firmware/src/main.rs:63-82 | no two servos share a pin |
| Firmware.DegreesFor | firmware/src/main.rs:93-98 | a servo gets at most one rotation per dispatched request, and every value fits in a `u8` |
| Firmware.DegreesForSnoc | firmware/src/main.rs:93-98 | one more request adds its degrees, unchanged, to its own servo's log and nothing to the others |
| Firmware.RotationsPartitionRequests | firmware/src/main.rs:93-98 | every dispatched request causes exactly one rotation: the three logs together are as long as the requests |
| Firmware.UnnamedServoNeverRotates | firmware/src/main.rs:93-98 | a servo no request names is never rotated |
| Firmware.NamedServoRotatesEach | firmware/src/main.rs:93-98 | when every request names one servo, its log is their degrees one for one, in order |
| Firmware.ServoActuator.constructor | firmware/src/main.rs:63-82 | a built servo has its pin and configuration, is stopped, and has not rotated |
| Firmware.ServoActuator.Start | firmware/src/main.rs:88-90 | a started servo runs and its log is unchanged |
| Firmware.ServoActuator.Rotate | firmware/src/main.rs:95-97 | only a running servo is rotated, and it records exactly the value given |
| Firmware.Controller.ServoFor | firmware/src/main.rs:94-97 | each request kind is routed to one of the three servo objects |
| Firmware.Controller.constructor | firmware/src/main.rs:63-82 | three distinct servos on PIN_2, PIN_3 and PIN_4 with the shared configuration, each one stopped, nothing dispatched |
| Firmware.Controller.StartServos | firmware/src/main.rs:88-90 | afterwards all three servos run, and the logs are unchanged |
| Firmware.Controller.Step | firmware/src/main.rs:92-98 | with all servos running and a request waiting, the oldest request is taken, it is the next one sent not yet received, and only its servo is rotated, by exactly its degrees; the other two logs are unchanged |
| Firmware.UsbTaskPreservesController | pico-firmware/src/usb/mod.rs:69-100 | any change the USB task makes between turns of the loop that keeps the queue well-formed, forgets nothing received and touches no servo keeps the main task's invariant; `Firmware.Controller.UsbTurn` calls it after `Usb.Enqueue` |
| Firmware.Controller.UsbTurn | pico-firmware/src/usb/mod.rs:79-97 | a USB turn between turns of the loop: the decided command's request, if any, joins the back of the queue, nothing received changes, and the main task's invariant holds again |
| Firmware.Controller.TakeTurn | firmware/src/main.rs:92-98 | the first turn of a schedule that can run, by either task: what it sends and dispatches is the first turn's part of the schedule's, and the rest can still run |
| Firmware.Controller.Interleave | firmware/src/main.rs:92-101 | the main loop and the USB task taking turns as a schedule says: the requests sent are the USB turns' ones in order, the requests dispatched are the oldest sent ones, one per dispatch turn, none skipped or repeated, and each servo's log is the degrees of the dispatched requests naming it |
| Firmware.TurnQueued | pico-firmware/src/usb/mod.rs:79-97 | a turn sends at most one request, and only a USB turn sends one |
| Firmware.QueuedBy | pico-firmware/src/usb/mod.rs:79-97 | a schedule sends at most one request per turn |
| Firmware.Dispatches | firmware/src/main.rs:92-98 | a schedule dispatches at most one request per turn |
| Firmware.Enabled | firmware/src/main.rs:93 | when a turn can run: a USB turn needs room in the queue of capacity 64, a dispatch needs a request waiting |
| Firmware.Waiting | firmware/src/main.rs:93 | after a turn the queue holds at most its capacity or at most what it held before |
| Firmware.Feasible | firmware/src/main.rs:92-101 | a schedule can run from a given queue length when every turn is enabled when it comes |
| Firmware.FeasibleBalance | firmware/src/main.rs:92-101 | in a schedule that can run, the loop never dispatches more requests than were waiting plus those the USB turns send, and a queue within capacity stays within it |
| Firmware.Controller.Run | firmware/src/main.rs:92-101 | k turns dispatch exactly the next k requests sent, in order, none skipped or repeated, and each servo's log is the degrees of the dispatched requests naming it |
| Firmware.Boot | firmware/src/main.rs:63-101 | all servos are started before the first request is taken; after any schedule of loop turns and USB turns that can run, the requests sent are those waiting at the start followed by the USB turns' ones, the dispatched requests are the first ones ever sent, one per dispatch turn, and each servo's log follows from them |

## Left out

- USB device setup (`Config`, descriptors, `Builder`, `CdcAcmClass`, `usb_task`) at pico-firmware/src/usb/mod.rs:104-142: hardware and USB-stack plumbing.
- The `serial` module and the `with_class!` macro, which collect bytes into chunks: their source is not part of this model. `ParseCommand` takes one delimited chunk. The UI writes its command with no line terminator (tauri-app/src/App.tsx:66).
- `reset_to_usb_boot`: a ROM call that does not return. It appears only as the `Reset` outcome, and `HandleData` leaves the queue untouched on it. A schedule given to `Firmware.Controller.Interleave` or `Firmware.Boot` may go on after a turn whose command is `Reset`; the device would not, since it reboots and loses the queue, so only the part of a schedule up to its first reset describes a real run.
- The `async` suspension of `send` and `receive`, `ThreadModeRawMutex` and the internals of `embassy_sync::Channel`. A full queue and an empty queue appear as preconditions (`Usb.Channel.Send`, `Usb.Channel.Receive`, `Firmware.Enabled`). The two tasks interleave only at whole turns, in an order given as a schedule (`Firmware.Controller.Interleave`).
- Firmware.Controller.Run: runs a given number of turns with that many requests already waiting. The real loop does not terminate and waits for each request.
- Firmware.Boot: runs a finite schedule of whole turns given in advance; the firmware runs forever and the order of turns is chosen by the executor. A USB turn carries the command `Usb.ParseCommand` decides for its chunk rather than the chunk's bytes, so a USB turn inside the schedule goes through `Usb.Enqueue`, not `Usb.HandleData`; that the two agree is read from `HandleData`'s body (it is `ParseCommand` followed by `Enqueue`) and its contract, which has the same buffer, sent and received equations.
- `Timer::after_millis(10)` pacing and all other real-time behaviour (firmware/src/main.rs:100).
- PIO, PWM, GPIO and LED initialisation, and the `servo` module's conversion of degrees to pulse widths. Its source is not part of this model. A servo appears only as its pin, its configuration, a running flag and the log of values given to `rotate`.
- Firmware.ServoActuator.Rotate: requires a running servo. The `servo` module's behaviour on a stopped servo is not known here, and the firmware never rotates one.
- `info!` logging.
- `tauri-app/src/App.tsx`, except the text format of the command it writes (line 61). Its `Math.round(Number(...))` is floating point, so the model takes the degrees as any natural number. `UsbProperties.UiText` renders them in plain decimal, which is JavaScript's `${degree}` text only below 10^21; from there on JavaScript writes exponent form ("1e+21"). The slider's range of 0 to 100 and the rejection of everything above 255 are not affected.
