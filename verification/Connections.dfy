/** The per-connection flags, the registry of live connections, and the response body that
    says when a response has been produced. */
module Connections {
  import opened Wrappers

  /** What the flags of a connection show at one moment, and what each method makes of it. */
  datatype Flags = Flags(idle: bool, closing: bool, request: bool, bodyComplete: bool, writeDeadline: bool)

  function Started(flags: Flags): Flags {
    Flags(false, flags.closing, true, false, false)
  }

  function Written(flags: Flags): Flags {
    flags.(request := false, writeDeadline := true)
  }

  function Completed(flags: Flags): Flags {
    flags.(bodyComplete := true)
  }

  function FlushedOut(flags: Flags): Flags {
    if flags.bodyComplete then flags.(bodyComplete := false, writeDeadline := false, idle := true) else flags
  }

  /** One connection's shared flags. `closing` is the close signal it watches; `request`
      and `writeDeadline` are reduced to whether they are set. */
  class ConnectionControl {
    var idle: bool
    var closing: bool
    var request: bool
    var cancelled: bool
    var bodyComplete: bool
    var writeDeadline: bool

    function Shown(): Flags
      reads this
    {
      Flags(idle, closing, request, bodyComplete, writeDeadline)
    }

    constructor ()
      ensures !idle && !closing && !request && !cancelled && !bodyComplete && !writeDeadline
    {
      idle, closing, request, cancelled, bodyComplete, writeDeadline := false, false, false, false, false, false;
    }

    method Start()
      modifies this
      ensures !idle && request && !bodyComplete && !writeDeadline
      ensures Shown() == Started(old(Shown())) && !cancelled
    {
      idle := false;
      request, cancelled := true, false;
      bodyComplete := false;
      writeDeadline := false;
    }

    method Writing()
      modifies this`request, this`writeDeadline
      ensures Shown() == Written(old(Shown()))
    {
      request := false;
      writeDeadline := true;
    }

    method BodyComplete()
      modifies this`bodyComplete
      ensures Shown() == Completed(old(Shown()))
    {
      bodyComplete := true;
    }

    /** Output has been flushed: if the body is complete too, the connection is idle. */
    method Flushed() returns (notified: bool)
      modifies this`bodyComplete, this`writeDeadline, this`idle
      ensures Shown() == FlushedOut(old(Shown())) && notified == old(bodyComplete) && !bodyComplete
      ensures notified ==> idle && !writeDeadline
      ensures !notified ==> idle == old(idle) && writeDeadline == old(writeDeadline)
    {
      notified := bodyComplete;
      bodyComplete := false;
      if notified {
        writeDeadline := false;
        idle := true;
      }
    }
  }

  /** What the inner body answers: data of some length, trailers, an error, none left, or
      nothing yet. */
  datatype Frame = Data(length: nat) | Trailers | Broken | End | NotReady

  /** What the response body answers: its own time-out, or what the inner body did. */
  datatype Polled = TimedOut | Passed(frame: Frame)

  /** What is still owed of a declared length. */
  function Owed(remaining: Option<nat>, frame: Frame): Option<nat> {
    match remaining
    case Some(n) => Some(if frame.Data? then (if n < frame.length then 0 else n - frame.length) else n)
    case None => None
  }

  class ResponseBody {
    const control: ConnectionControl
    var remaining: Option<nat>

    constructor (control: ConnectionControl, declared: Option<nat>, exact: Option<nat>, ended: bool)
      modifies control
      ensures this.control == control
      ensures remaining == (if declared.Some? then declared else exact)
      ensures !control.request && control.writeDeadline && control.idle == old(control.idle)
              && control.closing == old(control.closing)
      ensures control.bodyComplete == (old(control.bodyComplete) || ended || remaining == Some(0))
    {
      this.control := control;
      remaining := if declared.Some? then declared else exact;
      new;
      control.Writing();
      if ended || remaining == Some(0) {
        control.BodyComplete();
      }
    }

    /** Passes on what the inner body answers; the body is complete once the stream has ended or
        the declared length is exhausted, whatever the answer. `ended` is what the inner body
        says of itself afterwards. Past the write deadline it is not asked at all. */
    method PollFrame(timedOut: bool, frame: Frame, ended: bool) returns (answer: Polled)
      requires control as object != this
      modifies this`remaining, control`bodyComplete
      ensures timedOut ==>
              answer == TimedOut && remaining == old(remaining) && control.bodyComplete == old(control.bodyComplete)
      ensures !timedOut ==> answer == Passed(frame) && remaining == Owed(old(remaining), frame)
      ensures !timedOut ==>
              control.bodyComplete == (old(control.bodyComplete) || frame.End? || ended || remaining == Some(0))
    {
      if timedOut {
        return TimedOut;
      }
      if remaining.Some? && frame.Data? {
        remaining := Some(if remaining.value < frame.length then 0 else remaining.value - frame.length);
      }
      if frame.End? || ended || remaining == Some(0) {
        control.BodyComplete();
      }
      return Passed(frame);
    }
  }

  // ----- declared lengths -----

  function DataLength(frames: seq<Frame>): nat {
    if frames == [] then 0
    else DataLength(frames[..|frames| - 1]) + if frames[|frames| - 1].Data? then frames[|frames| - 1].length else 0
  }

  function OwedAfter(declared: Option<nat>, frames: seq<Frame>): Option<nat> {
    if frames == [] then declared else Owed(OwedAfter(declared, frames[..|frames| - 1]), frames[|frames| - 1])
  }

  /** The remaining count reaches zero exactly when the declared number of bytes has gone out. */
  lemma {:induction false} OwedIsDeclaredLessSent(declared: nat, frames: seq<Frame>)
    ensures OwedAfter(Some(declared), frames) ==
            Some(if declared < DataLength(frames) then 0 else declared - DataLength(frames))
    ensures OwedAfter(Some(declared), frames) == Some(0) <==> declared <= DataLength(frames)
  {
    if frames != [] { OwedIsDeclaredLessSent(declared, frames[..|frames| - 1]); }
  }

  // ----- the registry -----

  ghost predicate Unique(entries: seq<ConnectionControl>) {
    forall i, j :: 0 <= i < j < |entries| ==> entries[i] != entries[j]
  }

  function Without(entries: seq<ConnectionControl>, control: ConnectionControl): seq<ConnectionControl> {
    if entries == [] then []
    else (if entries[0] == control then [] else [entries[0]]) + Without(entries[1..], control)
  }

  lemma {:induction false} WithoutRemoves(entries: seq<ConnectionControl>, control: ConnectionControl)
    requires Unique(entries)
    ensures Unique(Without(entries, control))
    ensures forall c :: c in Without(entries, control) <==> c in entries && c != control
    ensures |Without(entries, control)| == |entries| - if control in entries then 1 else 0
  {
    if entries != [] {
      assert Unique(entries[1..]);
      WithoutRemoves(entries[1..], control);
      var rest := Without(entries[1..], control);
      assert entries[0] !in entries[1..];
      forall i, j | 0 <= i < j < |Without(entries, control)|
        ensures Without(entries, control)[i] != Without(entries, control)[j] {
        if entries[0] != control {
          assert Without(entries, control) == [entries[0]] + rest;
          assert rest[j - 1] in rest;
        }
      }
    }
  }

  class Connections {
    var entries: seq<ConnectionControl>

    constructor ()
      ensures entries == []
    {
      entries := [];
    }

    method Register() returns (control: ConnectionControl)
      requires Unique(entries)
      modifies this
      ensures fresh(control) && !control.idle && !control.closing && !control.request
      ensures entries == old(entries) + [control] && Unique(entries)
    {
      control := new ConnectionControl();
      entries := entries + [control];
    }

    /** Dropping a registration removes this connection and no other. */
    method Unregister(control: ConnectionControl)
      requires Unique(entries)
      modifies this
      ensures entries == Without(old(entries), control) && Unique(entries)
      ensures forall c :: c in entries <==> c in old(entries) && c != control
    {
      WithoutRemoves(entries, control);
      entries := Without(entries, control);
    }

    /** Every connection that was idle, and no other, is told to close. */
    method EvictIdle()
      requires Unique(entries)
      modifies entries
      ensures entries == old(entries)
      ensures forall c :: c in entries ==> !c.idle && c.closing == (old(c.closing) || old(c.idle))
      ensures forall c :: c in entries ==> c.request == old(c.request) && c.bodyComplete == old(c.bodyComplete)
                                           && c.writeDeadline == old(c.writeDeadline) && c.cancelled == old(c.cancelled)
    {
      for i := 0 to |entries|
        invariant entries == old(entries)
        invariant forall j :: 0 <= j < i ==>
                  !entries[j].idle && entries[j].closing == (old(entries[j].closing) || old(entries[j].idle))
        invariant forall j :: i <= j < |entries| ==>
                  entries[j].idle == old(entries[j].idle) && entries[j].closing == old(entries[j].closing)
        invariant forall c :: c in entries ==> c.request == old(c.request) && c.bodyComplete == old(c.bodyComplete)
                                               && c.writeDeadline == old(c.writeDeadline)
                                               && c.cancelled == old(c.cancelled)
      {
        var was := entries[i].idle;
        entries[i].idle := false;
        if was {
          entries[i].closing := true;
        }
      }
    }

    method Drain()
      requires Unique(entries)
      modifies entries
      ensures entries == old(entries)
      ensures forall c :: c in entries ==> c.closing && c.idle == old(c.idle) && c.request == old(c.request)
    {
      for i := 0 to |entries|
        invariant entries == old(entries)
        invariant forall j :: 0 <= j < i ==> entries[j].closing
        invariant forall c :: c in entries ==> c.idle == old(c.idle) && c.request == old(c.request)
      {
        entries[i].closing := true;
      }
    }

    /** Shuts down the request of every connection that has one in its handler. */
    method Cancel()
      requires Unique(entries)
      modifies entries
      ensures entries == old(entries)
      ensures forall c :: c in entries ==>
              c.cancelled == (old(c.cancelled) || old(c.request)) && c.request == old(c.request)
    {
      for i := 0 to |entries|
        invariant entries == old(entries)
        invariant forall j :: 0 <= j < i ==>
                  entries[j].cancelled == (old(entries[j].cancelled) || old(entries[j].request))
        invariant forall j :: i <= j < |entries| ==> entries[j].cancelled == old(entries[j].cancelled)
        invariant forall c :: c in entries ==> c.request == old(c.request)
      {
        if entries[i].request {
          entries[i].cancelled := true;
        }
      }
    }
  }
}
