/** The USB side of the firmware (pico-firmware/src/usb/mod.rs): the byte trim helper, the
    servo request types, the decision `CommandHandler::handle_data` takes on a received
    chunk, and the bounded request queue `SERVO_DEGREES` that it feeds. */
module Usb {
  import opened Wrappers
  import opened RustCore

  datatype Servo = Thumb | Arm | Fingers

  datatype ServoMoveRequest = ServoMoveRequest(servo: Servo, degrees: uint8)

  /** What a received chunk asks for: a reboot into the USB bootloader, or a servo move. */
  datatype Command = Reset | Move(request: ServoMoveRequest)

  // ------------------------------------------------------------------ trim_ascii_whitespace

  /** `x.iter().position(|b| !b.is_ascii_whitespace())`: the index of the first byte that is
      not ASCII whitespace. */
  function FirstNonWhitespace(x: seq<uint8>): (r: Option<nat>)
    ensures r.Some? ==> r.value < |x| && !IsAsciiWhitespace(x[r.value])
    ensures r.Some? ==> forall i :: 0 <= i < r.value ==> IsAsciiWhitespace(x[i])
    ensures r.None? ==> forall i :: 0 <= i < |x| ==> IsAsciiWhitespace(x[i])
  {
    if x == [] then None
    else if !IsAsciiWhitespace(x[0]) then Some(0)
    else
      match FirstNonWhitespace(x[1..])
      case None => None
      case Some(i) => Some(i + 1)
  }

  /** `x.iter().rposition(|b| !b.is_ascii_whitespace())`: the index of the last byte that is
      not ASCII whitespace. */
  function LastNonWhitespace(x: seq<uint8>): (r: Option<nat>)
    ensures r.Some? ==> r.value < |x| && !IsAsciiWhitespace(x[r.value])
    ensures r.Some? ==> forall i :: r.value < i < |x| ==> IsAsciiWhitespace(x[i])
    ensures r.None? ==> forall i :: 0 <= i < |x| ==> IsAsciiWhitespace(x[i])
  {
    if x == [] then None
    else if !IsAsciiWhitespace(x[|x| - 1]) then Some(|x| - 1)
    else LastNonWhitespace(x[..|x| - 1])
  }

  /** `trim_ascii_whitespace`: `x` without its leading and trailing ASCII whitespace. The
      result is empty exactly when every byte is ASCII whitespace; otherwise it starts and
      ends with a non-whitespace byte and is the contiguous part of `x` left between a
      whitespace prefix and a whitespace suffix. The `unwrap` of the last position is
      justified by the first position having been found. */
  function TrimAsciiWhitespace(x: seq<uint8>): (r: seq<uint8>)
    ensures r == [] <==> forall i :: 0 <= i < |x| ==> IsAsciiWhitespace(x[i])
    ensures r != [] ==> !IsAsciiWhitespace(r[0]) && !IsAsciiWhitespace(r[|r| - 1])
    ensures exists from, to :: 0 <= from <= to <= |x| && r == x[from..to]
              && (forall i :: 0 <= i < from ==> IsAsciiWhitespace(x[i]))
              && (forall i :: to <= i < |x| ==> IsAsciiWhitespace(x[i]))
  {
    match FirstNonWhitespace(x)
    case None => x[0..0]
    case Some(from) =>
      var to := LastNonWhitespace(x).value;
      x[from..to + 1]
  }

  // ------------------------------------------------------------------ handle_data's decision

  /** The command word of each servo, matched case-sensitively as a prefix of the line. */
  function Keyword(servo: Servo): string {
    match servo
    case Arm => "arm"
    case Thumb => "thumb"
    case Fingers => "fingers"
  }

  /** `parse_degrees!`: skip the first whitespace-separated word and parse the second as a
      `u8`; None (the handler returns early) when there is no second word or it does not
      parse. Later words are never looked at. */
  function ParseDegrees(line: string): Option<uint8> {
    var words := SplitWhitespace(line);
    if |words| < 2 then None else ParseU8(words[1])
  }

  function MoveTo(servo: Servo, line: string): Option<Command> {
    match ParseDegrees(line)
    case None => None
    case Some(degrees) => Some(Move(ServoMoveRequest(servo, degrees)))
  }

  /** The branches of `handle_data` on the trimmed line: reset on "q" or "elf2uf2-term"
      ignoring ASCII case, then try "arm", "thumb" and "fingers" as prefixes in that order;
      anything else is dropped. */
  function DecideTrimmed(line: string): Option<Command> {
    if EqIgnoreAsciiCase(line, "q") then Some(Reset)
    else if EqIgnoreAsciiCase(line, "elf2uf2-term") then Some(Reset)
    else if StartsWith(line, "arm") then MoveTo(Arm, line)
    else if StartsWith(line, "thumb") then MoveTo(Thumb, line)
    else if StartsWith(line, "fingers") then MoveTo(Fingers, line)
    else None
  }

  /** `handle_data` after decoding: the line is trimmed with `str::trim` and then decided. */
  function DecideLine(text: string): Option<Command> {
    DecideTrimmed(Trim(text))
  }

  /** The command a received chunk yields: a chunk that is not well-formed UTF-8 yields none. */
  function ParseCommand(data: seq<uint8>): Option<Command> {
    match FromUtf8(data)
    case None => None
    case Some(text) => DecideLine(text)
  }

  // ------------------------------------------------------------------ SERVO_DEGREES

  /** The capacity of `SERVO_DEGREES`. */
  const Capacity: nat := 64

  /** `SERVO_DEGREES`: a first-in first-out queue of at most `Capacity` move requests.
      `sent` is every request ever accepted and `received` every request taken out, so the
      requests still waiting are exactly the accepted ones not yet received. */
  class Channel {
    var buffer: seq<ServoMoveRequest>
    ghost var sent: seq<ServoMoveRequest>
    ghost var received: seq<ServoMoveRequest>

    ghost predicate Valid()
      reads this
    {
      |buffer| <= Capacity && sent == received + buffer
    }

    /** `Channel::new()`: empty, nothing sent yet. */
    constructor ()
      ensures Valid() && buffer == [] && sent == [] && received == []
    {
      buffer := [];
      sent := [];
      received := [];
    }

    /** `send`: appends at the back. A full queue makes the sender wait, so the call only
        happens once there is room. */
    method Send(request: ServoMoveRequest)
      requires Valid() && |buffer| < Capacity
      modifies this
      ensures Valid()
      ensures buffer == old(buffer) + [request]
      ensures sent == old(sent) + [request] && received == old(received)
    {
      buffer := buffer + [request];
      sent := sent + [request];
    }

    /** `receive`: takes the oldest request. An empty queue makes the receiver wait, so the
        call only happens once a request is there. */
    method Receive() returns (request: ServoMoveRequest)
      requires Valid() && |buffer| > 0
      modifies this
      ensures Valid()
      ensures request == old(buffer)[0] && buffer == old(buffer)[1..]
      ensures sent == old(sent) && received == old(received) + [request]
      ensures request == sent[|old(received)|]
    {
      request := buffer[0];
      buffer := buffer[1..];
      received := received + [request];
    }
  }

  /** The requests a command puts in the queue: its move request, if it is a move. */
  function Queued(command: Option<Command>): (q: seq<ServoMoveRequest>)
    ensures |q| <= 1
    ensures q != [] <==> command.Some? && command.value.Move?
    ensures q != [] ==> q[0] == command.value.request
  {
    match command
    case Some(Move(request)) => [request]
    case _ => []
  }

  /** The `SERVO_DEGREES.send` of each servo branch of `handle_data`: a move sends its
      request, a reset or no command sends nothing. */
  method Enqueue(channel: Channel, command: Option<Command>)
    requires channel.Valid()
    requires |Queued(command)| + |channel.buffer| <= Capacity
    modifies channel
    ensures channel.Valid()
    ensures channel.buffer == old(channel.buffer) + Queued(command)
    ensures channel.sent == old(channel.sent) + Queued(command)
    ensures channel.received == old(channel.received)
  {
    match command {
      case Some(Move(request)) =>
        assert Queued(command) == [request];
        channel.Send(request);
      case Some(Reset) =>
        assert Queued(command) == [];
      case None =>
        assert Queued(command) == [];
    }
  }

  /** `CommandHandler::handle_data`: a move request is sent to the queue, a reset command
      reboots into the bootloader (`reset_to_usb_boot`, which does not return, and leaves the
      queue alone), and anything else is dropped. At most one request is added, at the back. */
  method HandleData(channel: Channel, data: seq<uint8>) returns (command: Option<Command>)
    requires channel.Valid()
    requires |Queued(ParseCommand(data))| + |channel.buffer| <= Capacity
    modifies channel
    ensures channel.Valid()
    ensures command == ParseCommand(data)
    ensures channel.buffer == old(channel.buffer) + Queued(command)
    ensures channel.sent == old(channel.sent) + Queued(command)
    ensures channel.received == old(channel.received)
  {
    command := ParseCommand(data);
    Enqueue(channel, command);
  }
}
