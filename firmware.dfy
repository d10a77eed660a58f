/** The firmware's main task (firmware/src/main.rs): three servos built with one shared
    configuration, started, and then driven by an endless loop that takes the oldest move
    request from `SERVO_DEGREES` and rotates exactly the servo it names, while the USB task
    adds requests between its turns. */
module Firmware {
  import opened Wrappers
  import opened RustCore
  import opened Usb

  // ------------------------------------------------------------------ configuration

  /** `degree_rotation`, `min_pulse` and `max_pulse`, the same for all three servos. */
  const DegreeRotation: nat := 100
  const MinPulseMicros: nat := 500
  const MaxPulseMicros: nat := 2500

  /** What `ServoBuilder` is given: the maximum rotation and the pulse width range. */
  datatype ServoConfig = ServoConfig(maxDegreeRotation: nat, minPulseMicros: nat, maxPulseMicros: nat)

  /** The configuration every servo is built with; its pulse range is not empty. */
  function SharedConfig(): (c: ServoConfig)
    ensures c.maxDegreeRotation == 100 && c.minPulseMicros == 500 && c.maxPulseMicros == 2500
    ensures c.minPulseMicros < c.maxPulseMicros
  {
    ServoConfig(DegreeRotation, MinPulseMicros, MaxPulseMicros)
  }

  /** The GPIO pin each servo's PWM drives: the thumb on PIN_2, the four fingers on PIN_3 and
      the arm on PIN_4. */
  function PinOf(servo: Servo): (pin: nat)
    ensures 2 <= pin <= 4
  {
    match servo
    case Thumb => 2
    case Fingers => 3
    case Arm => 4
  }

  lemma PinsDistinct(a: Servo, b: Servo)
    ensures PinOf(a) == PinOf(b) <==> a == b
  {
  }

  // ------------------------------------------------------------------ the rotation logs

  /** The degrees, widened from `u8`, that the servo `servo` is asked to rotate to when the
      requests `requests` are dispatched in order. */
  function DegreesFor(requests: seq<ServoMoveRequest>, servo: Servo): (ds: seq<nat>)
    ensures |ds| <= |requests|
    ensures forall i :: 0 <= i < |ds| ==> ds[i] <= 0xFF
  {
    if requests == [] then []
    else
      (if requests[0].servo == servo then [requests[0].degrees as nat] else [])
        + DegreesFor(requests[1..], servo)
  }

  /** Dispatching one more request adds one rotation to its servo, unchanged in value, and
      none to the others. */
  lemma {:induction false} DegreesForSnoc(requests: seq<ServoMoveRequest>, r: ServoMoveRequest, servo: Servo)
    ensures DegreesFor(requests + [r], servo) ==
      DegreesFor(requests, servo) + (if r.servo == servo then [r.degrees as nat] else [])
    decreases |requests|
  {
    if requests == [] {
      assert [] + [r] == [r];
    } else {
      assert (requests + [r])[1..] == requests[1..] + [r];
      DegreesForSnoc(requests[1..], r, servo);
    }
  }

  /** Every request causes exactly one rotation: the three logs together are as long as
      the requests dispatched. */
  lemma {:induction false} RotationsPartitionRequests(requests: seq<ServoMoveRequest>)
    ensures |DegreesFor(requests, Thumb)| + |DegreesFor(requests, Arm)|
            + |DegreesFor(requests, Fingers)| == |requests|
    decreases |requests|
  {
    if requests != [] {
      RotationsPartitionRequests(requests[1..]);
    }
  }

  /** A servo that no request names is never rotated. */
  lemma {:induction false} UnnamedServoNeverRotates(requests: seq<ServoMoveRequest>, servo: Servo)
    requires forall i :: 0 <= i < |requests| ==> requests[i].servo != servo
    ensures DegreesFor(requests, servo) == []
    decreases |requests|
  {
    if requests != [] {
      UnnamedServoNeverRotates(requests[1..], servo);
    }
  }

  /** A servo's log depends only on the requests naming it, in their order: when every
      request names it, the log is the requests' degrees one for one. */
  lemma {:induction false} NamedServoRotatesEach(requests: seq<ServoMoveRequest>, servo: Servo)
    requires forall i :: 0 <= i < |requests| ==> requests[i].servo == servo
    ensures |DegreesFor(requests, servo)| == |requests|
    ensures forall i :: 0 <= i < |requests| ==> DegreesFor(requests, servo)[i] == requests[i].degrees as nat
    decreases |requests|
  {
    if requests != [] {
      NamedServoRotatesEach(requests[1..], servo);
    }
  }

  // ------------------------------------------------------------------ interleaving

  /** A turn of one of the two tasks: the USB task handling a chunk that `handle_data`
      decided as `command` (`Usb.ParseCommand` of its bytes), or the main loop dispatching
      the oldest waiting request. */
  datatype Turn = UsbChunk(command: Option<Command>) | Dispatch

  /** The requests one turn sends: those of a USB turn's command, none for a dispatch. */
  function TurnQueued(turn: Turn): (q: seq<ServoMoveRequest>)
    ensures |q| <= 1 && (q != [] ==> turn.UsbChunk?)
  {
    match turn
    case UsbChunk(command) => Queued(command)
    case Dispatch => []
  }

  /** The requests the USB turns of `schedule` send, in order. */
  function QueuedBy(schedule: seq<Turn>): (q: seq<ServoMoveRequest>)
    ensures |q| <= |schedule|
  {
    if schedule == [] then []
    else
      TurnQueued(schedule[0]) + QueuedBy(schedule[1..])
  }

  /** The number of dispatch turns in `schedule`. */
  function Dispatches(schedule: seq<Turn>): (n: nat)
    ensures n <= |schedule|
  {
    if schedule == [] then 0
    else (if schedule[0].Dispatch? then 1 else 0) + Dispatches(schedule[1..])
  }

  /** With `waiting` requests in the queue, `turn` can run: a USB turn finds room for its
      request (a full queue would make `send` wait) and a dispatch finds a request waiting
      (an empty queue would make `receive` wait). */
  predicate Enabled(turn: Turn, waiting: nat) {
    match turn
    case UsbChunk(command) => waiting + |Queued(command)| <= Capacity
    case Dispatch => waiting > 0
  }

  /** The number of requests waiting after an enabled turn. */
  function Waiting(turn: Turn, waiting: nat): (w: nat)
    requires Enabled(turn, waiting)
    ensures w <= Capacity || w <= waiting
  {
    match turn
    case UsbChunk(command) => waiting + |Queued(command)|
    case Dispatch => waiting - 1
  }

  /** Starting with `waiting` requests in the queue, every turn of `schedule` can run when
      it comes. */
  predicate Feasible(schedule: seq<Turn>, waiting: nat)
  {
    schedule == [] ||
    (Enabled(schedule[0], waiting) && Feasible(schedule[1..], Waiting(schedule[0], waiting)))
  }

  /** The first turn of a schedule that can run: it is enabled, the rest can run after it,
      and what the whole schedule sends and dispatches is the first turn's part and then
      the rest's. */
  lemma ScheduleStep(schedule: seq<Turn>, waiting: nat)
    requires schedule != [] && Feasible(schedule, waiting)
    ensures Enabled(schedule[0], waiting)
    ensures Feasible(schedule[1..], Waiting(schedule[0], waiting))
    ensures QueuedBy(schedule) == TurnQueued(schedule[0]) + QueuedBy(schedule[1..])
    ensures Dispatches(schedule) == (if schedule[0].Dispatch? then 1 else 0) + Dispatches(schedule[1..])
  {
  }

  /** In a schedule that can run, the loop never dispatches more requests than were waiting
      at the start plus those the USB turns send, and a queue within its capacity at the
      start is within it at the end. */
  lemma {:induction false} FeasibleBalance(schedule: seq<Turn>, waiting: nat)
    requires Feasible(schedule, waiting)
    ensures Dispatches(schedule) <= waiting + |QueuedBy(schedule)|
    ensures waiting <= Capacity ==> waiting + |QueuedBy(schedule)| - Dispatches(schedule) <= Capacity
    decreases |schedule|
  {
    if schedule != [] {
      FeasibleBalance(schedule[1..], Waiting(schedule[0], waiting));
    }
  }

  // ------------------------------------------------------------------ one servo

  /** A servo driven by one PWM output: whether `start` has been called, and every degree
      value `rotate` has been given, oldest first. */
  class ServoActuator {
    const pin: nat
    const config: ServoConfig
    var running: bool
    var rotations: seq<nat>

    /** `ServoBuilder::new(..).set_..().build()`: configured, stopped, never rotated. */
    constructor (pin: nat, config: ServoConfig)
      ensures this.pin == pin && this.config == config
      ensures !running && rotations == []
    {
      this.pin := pin;
      this.config := config;
      running := false;
      rotations := [];
    }

    /** `start`: the servo is running; starting rotates nothing, so the log is unchanged. */
    method Start()
      modifies this
      ensures running && rotations == old(rotations)
    {
      running := true;
    }

    /** `rotate`: only called on a running servo, which records the value. */
    method Rotate(degrees: nat)
      requires running
      modifies this
      ensures running && rotations == old(rotations) + [degrees]
    {
      rotations := rotations + [degrees];
    }
  }

  // ------------------------------------------------------------------ main

  /** The main task's state: the queue shared with the USB task and the three servos.
      The requests the loop has dispatched, in order, are those received from the queue. */
  class Controller {
    const channel: Channel
    const thumbServo: ServoActuator
    const fourFingersServo: ServoActuator
    const armServo: ServoActuator

    /** The servo object a request for `servo` is routed to. */
    function ServoFor(servo: Servo): (actuator: ServoActuator)
      ensures actuator == thumbServo || actuator == fourFingersServo || actuator == armServo
    {
      match servo
      case Thumb => thumbServo
      case Arm => armServo
      case Fingers => fourFingersServo
    }

    ghost predicate Valid()
      reads this, channel, thumbServo, fourFingersServo, armServo
    {
      && channel.Valid()
      && thumbServo != fourFingersServo && thumbServo != armServo && fourFingersServo != armServo
      && thumbServo.pin == PinOf(Thumb) && fourFingersServo.pin == PinOf(Fingers)
      && armServo.pin == PinOf(Arm)
      && thumbServo.config == fourFingersServo.config == armServo.config == SharedConfig()
      && thumbServo.rotations == DegreesFor(channel.received, Thumb)
      && fourFingersServo.rotations == DegreesFor(channel.received, Fingers)
      && armServo.rotations == DegreesFor(channel.received, Arm)
    }

    predicate Started()
      reads thumbServo, fourFingersServo, armServo
    {
      thumbServo.running && fourFingersServo.running && armServo.running
    }

    /** Building the three servos on their pins with the shared configuration, before any
        request has been taken from the queue. */
    constructor (channel: Channel)
      requires channel.Valid() && channel.received == []
      ensures this.channel == channel
      ensures Valid() && !thumbServo.running && !fourFingersServo.running && !armServo.running
      ensures fresh(thumbServo) && fresh(fourFingersServo) && fresh(armServo)
    {
      this.channel := channel;
      thumbServo := new ServoActuator(PinOf(Thumb), SharedConfig());
      fourFingersServo := new ServoActuator(PinOf(Fingers), SharedConfig());
      armServo := new ServoActuator(PinOf(Arm), SharedConfig());
    }

    /** Starting the thumb, the arm and the four fingers, in that order; nothing rotates. */
    method StartServos()
      requires Valid()
      modifies thumbServo, armServo, fourFingersServo
      ensures Valid() && Started()
    {
      thumbServo.Start();
      armServo.Start();
      fourFingersServo.Start();
    }

    /** One turn of the loop: receive the oldest request and rotate exactly the servo it
        names by exactly its degrees; the other two servos are left as they were. An empty
        queue suspends the loop, so a turn happens only once a request is waiting. */
    method Step() returns (request: ServoMoveRequest)
      requires Valid() && Started() && |channel.buffer| > 0
      modifies channel, thumbServo, fourFingersServo, armServo
      ensures Valid() && Started()
      ensures request == old(channel.buffer)[0] && channel.buffer == old(channel.buffer)[1..]
      ensures channel.sent == old(channel.sent)
      ensures channel.received == old(channel.received) + [request]
      ensures request == channel.sent[|old(channel.received)|]
      ensures ServoFor(request.servo).rotations ==
                old(ServoFor(request.servo).rotations) + [request.degrees as nat]
      ensures forall s :: s != request.servo ==> ServoFor(s).rotations == old(ServoFor(s).rotations)
      ensures request.servo != Thumb ==> thumbServo.rotations == old(thumbServo.rotations)
      ensures request.servo != Fingers ==> fourFingersServo.rotations == old(fourFingersServo.rotations)
      ensures request.servo != Arm ==> armServo.rotations == old(armServo.rotations)
    {
      ghost var before := channel.received;
      request := channel.Receive();
      match request.servo {
        case Thumb => thumbServo.Rotate(request.degrees as nat);
        case Arm => armServo.Rotate(request.degrees as nat);
        case Fingers => fourFingersServo.Rotate(request.degrees as nat);
      }
      forall s ensures ServoFor(s).rotations == DegreesFor(channel.received, s) {
        DegreesForSnoc(before, request, s);
      }
    }

    /** `k` turns of the loop with `k` requests waiting: the dispatched requests are
        exactly the next `k` that were sent, in order, none skipped or repeated, and each
        servo has been rotated by exactly the degrees of the requests naming it. */
    method Run(k: nat)
      requires Valid() && Started() && k <= |channel.buffer|
      modifies channel, thumbServo, fourFingersServo, armServo
      ensures Valid() && Started()
      ensures channel.sent == old(channel.sent)
      ensures channel.buffer == old(channel.buffer)[k..]
      ensures channel.received == old(channel.received) + old(channel.buffer)[..k]
      ensures forall s :: ServoFor(s).rotations == DegreesFor(channel.received, s)
    {
      var i := 0;
      while i < k
        invariant 0 <= i <= k
        invariant Valid() && Started()
        invariant channel.sent == old(channel.sent)
        invariant channel.buffer == old(channel.buffer)[i..]
        invariant channel.received == old(channel.received) + old(channel.buffer)[..i]
      {
        var request := Step();
        assert old(channel.buffer)[..i + 1] == old(channel.buffer)[..i] + [request];
        i := i + 1;
      }
    }

    /** One turn of the USB task while the loop is suspended: the request of the decided
        command, if it is a move, joins the back of the queue; nothing received and no
        servo changes, so the main task's invariant holds again afterwards. */
    method UsbTurn(command: Option<Command>)
      requires Valid() && |Queued(command)| + |channel.buffer| <= Capacity
      modifies channel
      ensures Valid()
      ensures channel.buffer == old(channel.buffer) + Queued(command)
      ensures channel.sent == old(channel.sent) + Queued(command)
      ensures channel.received == old(channel.received)
    {
      Enqueue(channel, command);
      UsbTaskPreservesController(this);
    }

    /** The first turn of `schedule`, by either task, when it can run: a USB turn sends its
        command's request, a dispatch takes the oldest request and rotates its servo. What
        is sent and dispatched is the first turn's part of the schedule's, and the rest of
        the schedule can still run. */
    method TakeTurn(schedule: seq<Turn>)
      requires Valid() && Started() && schedule != [] && Feasible(schedule, |channel.buffer|)
      modifies channel, thumbServo, fourFingersServo, armServo
      ensures Valid() && Started()
      ensures channel.sent == old(channel.sent) + TurnQueued(schedule[0])
      ensures |channel.received| == |old(channel.received)| + (if schedule[0].Dispatch? then 1 else 0)
      ensures Feasible(schedule[1..], |channel.buffer|)
      ensures channel.sent + QueuedBy(schedule[1..]) == old(channel.sent) + QueuedBy(schedule)
      ensures |channel.received| + Dispatches(schedule[1..]) ==
              |old(channel.received)| + Dispatches(schedule)
    {
      ScheduleStep(schedule, |channel.buffer|);
      match schedule[0] {
        case UsbChunk(command) =>
          UsbTurn(command);
        case Dispatch =>
          var _ := Step();
      }
    }

    /** The two tasks taking turns as `schedule` says. Every request either task handles
        is accounted for: the requests sent are those of the USB turns, in order, the
        requests dispatched are the oldest sent ones, one per dispatch turn, none skipped
        or repeated, and each servo has been rotated by exactly the degrees of the
        dispatched requests naming it. */
    method Interleave(schedule: seq<Turn>)
      requires Valid() && Started() && Feasible(schedule, |channel.buffer|)
      modifies channel, thumbServo, fourFingersServo, armServo
      ensures Valid() && Started()
      ensures channel.sent == old(channel.sent) + QueuedBy(schedule)
      ensures |channel.received| == |old(channel.received)| + Dispatches(schedule)
      ensures channel.received == channel.sent[..|old(channel.received)| + Dispatches(schedule)]
      ensures forall s :: ServoFor(s).rotations == DegreesFor(channel.received, s)
    {
      var i := 0;
      while i < |schedule|
        invariant 0 <= i <= |schedule|
        invariant Valid() && Started()
        invariant Feasible(schedule[i..], |channel.buffer|)
        invariant channel.sent + QueuedBy(schedule[i..]) == old(channel.sent) + QueuedBy(schedule)
        invariant |channel.received| + Dispatches(schedule[i..]) ==
                  |old(channel.received)| + Dispatches(schedule)
      {
        TakeTurn(schedule[i..]);
        assert schedule[i..][1..] == schedule[i + 1..];
        i := i + 1;
      }
      assert schedule[i..] == [];
      assert channel.received == channel.sent[..|channel.received|];
    }
  }

  /** The USB task runs while the loop is suspended. Whatever it does under the guarantees
      of `HandleData` (the queue stays well-formed, nothing received is forgotten, no servo
      is touched), it preserves the main task's invariant. */
  twostate lemma UsbTaskPreservesController(c: Controller)
    requires old(c.Valid())
    requires c.channel.Valid() && c.channel.received == old(c.channel.received)
    requires unchanged(c.thumbServo, c.fourFingersServo, c.armServo)
    ensures c.Valid()
  {
  }

  /** `main` from building the servos onwards: every servo is started before the first
      request is taken; then the loop and the USB task take turns as `schedule` says. After
      it, the requests sent are those waiting at the start followed by the USB turns' ones,
      the dispatched requests are the first ones ever sent, one per dispatch turn, and each
      servo has been rotated for exactly those among them that name it. */
  method Boot(channel: Channel, schedule: seq<Turn>) returns (controller: Controller)
    requires channel.Valid() && channel.received == [] && Feasible(schedule, |channel.buffer|)
    modifies channel
    ensures controller.channel == channel && controller.Valid() && controller.Started()
    ensures channel.sent == old(channel.sent) + QueuedBy(schedule)
    ensures |channel.received| == Dispatches(schedule)
    ensures channel.received == channel.sent[..Dispatches(schedule)]
    ensures forall s :: controller.ServoFor(s).rotations == DegreesFor(channel.sent[..Dispatches(schedule)], s)
  {
    controller := new Controller(channel);
    controller.StartServos();
    controller.Interleave(schedule);
  }
}
