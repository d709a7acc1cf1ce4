/**
  The read loop of `BackupThread.run` in pmos_backup/window.py: every line
  the `pmos-backup --json` subprocess prints becomes a progress update, an
  error message, or nothing, and the end of its output becomes the final
  `None` that closes the progress dialog.
*/
module Dispatch {
  import opened Wrappers
  import opened Text

  /** A decoded JSON object: its keys and the text of their values. */
  type Packet = map<string, string>

  /** What the thread hands to the window's callback. */
  datatype Event =
    | Progress(value: string, text: string)   // the tuple `(value, label)`
    | Error(message: string)                  // a string
    | End                                     // `None`: the subprocess ended

  /** What one line read from the subprocess does. */
  datatype LineEffect = Deliver(event: Event) | Silent | Crash

  /**
    One line: an empty read is the end of the output; a line starting with
    `{` is decoded with `decode` (`json.loads`, None when it raises) and
    delivers its progress or error; any other line is only echoed. A
    progress packet without a label raises KeyError.
  */
  function LineEvent(line: string, decode: string -> Option<Packet>): (r: LineEffect)
    ensures r == Deliver(End) <==> line == []
    ensures line != [] && line[0] != '{' ==> r == Silent
    ensures r.Deliver? && !r.event.End? ==> line != [] && line[0] == '{' && decode(line).Some?
    ensures r.Crash? ==> line != [] && line[0] == '{'
    // What a JSON line delivers, by the keys of its packet; `progress` is looked at first
    ensures line != [] && line[0] == '{' && decode(line).None? ==> r == Crash
    ensures line != [] && line[0] == '{' && decode(line).Some? ==>
      var p := decode(line).value;
      && ("progress" in p && "label" in p ==> r == Deliver(Progress(p["progress"], p["label"])))
      && ("progress" in p && "label" !in p ==> r == Crash)
      && ("progress" !in p && "error" in p ==> r == Deliver(Error(p["error"])))
      && ("progress" !in p && "error" !in p ==> r == Silent)
  {
    if line == [] then Deliver(End)
    else if line[0] == '{' then
      match decode(line)
      case None => Crash
      case Some(packet) =>
        if "progress" in packet then
          if "label" in packet then Deliver(Progress(packet["progress"], packet["label"])) else Crash
        else if "error" in packet then Deliver(Error(packet["error"]))
        else Silent
    else Silent
  }

  /** The callbacks of a run, and the line whose exception ended the thread, if any. */
  datatype Trace = Trace(events: seq<Event>, crash: Option<string>)

  /** The run over `lines`, after which the output ends. */
  function Run(lines: seq<string>, decode: string -> Option<Packet>): Trace
    decreases |lines|
  {
    if lines == [] then Trace([End], None)
    else
      match LineEvent(lines[0], decode)
      case Deliver(e) =>
        if e.End? then Trace([End], None)
        else
          var rest := Run(lines[1..], decode);
          Trace([e] + rest.events, rest.crash)
      case Silent => Run(lines[1..], decode)
      case Crash => Trace([], Some(lines[0]))
  }

  /**
    A run ends in exactly one `End`, as its last callback, unless a line
    raised an exception; then the thread dies without `End`, and the
    progress dialog is never closed.
  */
  lemma {:induction false} RunEnds(lines: seq<string>, decode: string -> Option<Packet>)
    ensures var t := Run(lines, decode);
      && (t.crash.None? <==> End in t.events)
      && (forall i :: 0 <= i < |t.events| && t.events[i] == End ==> i == |t.events| - 1)
      && |t.events| <= |lines| + 1
    decreases |lines|
  {
    if lines != [] {
      RunEnds(lines[1..], decode);
    }
  }

  /** An exception names a line of the output that starts with `{`. */
  lemma {:induction false} RunCrashLine(lines: seq<string>, decode: string -> Option<Packet>)
    ensures var t := Run(lines, decode);
      t.crash.Some? ==> t.crash.value in lines && t.crash.value != [] && t.crash.value[0] == '{'
    decreases |lines|
  {
    if lines != [] {
      RunCrashLine(lines[1..], decode);
    }
  }

  /** Every progress update and error message comes from a line of the output that delivers it. */
  lemma {:induction false} RunEventSource(lines: seq<string>, decode: string -> Option<Packet>, i: nat)
    requires i < |Run(lines, decode).events| && !Run(lines, decode).events[i].End?
    ensures exists k :: 0 <= k < |lines| && LineEvent(lines[k], decode) == Deliver(Run(lines, decode).events[i])
    decreases |lines|
  {
    var e := Run(lines, decode).events[i];
    if LineEvent(lines[0], decode) == Silent {
      RunEventSource(lines[1..], decode, i);
      var k :| 0 <= k < |lines[1..]| && LineEvent(lines[1..][k], decode) == Deliver(e);
      assert lines[k + 1] == lines[1..][k];
    } else if i > 0 {
      RunEventSource(lines[1..], decode, i - 1);
      var k :| 0 <= k < |lines[1..]| && LineEvent(lines[1..][k], decode) == Deliver(e);
      assert lines[k + 1] == lines[1..][k];
    } else {
      assert LineEvent(lines[0], decode) == Deliver(e);
    }
  }

  /** Lines that are not JSON deliver nothing: a run is unchanged by echoed lines in front. */
  lemma {:induction false} RunSkipsEcho(echo: seq<string>, lines: seq<string>, decode: string -> Option<Packet>)
    requires forall k :: 0 <= k < |echo| ==> echo[k] != [] && echo[k][0] != '{'
    ensures Run(echo + lines, decode) == Run(lines, decode)
    decreases |echo|
  {
    if echo == [] {
      assert echo + lines == lines;
    } else {
      assert (echo + lines)[0] == echo[0];
      assert LineEvent(echo[0], decode) == Silent;
      assert (echo + lines)[1..] == echo[1..] + lines;
      RunSkipsEcho(echo[1..], lines, decode);
    }
  }

  /**
    `BackupThread.run` (pmos_backup/window.py, lines 29-42): read lines
    until the empty read that marks the end of the output, dispatching
    each; an exception ends the loop.
  */
  method ReadLoop(lines: seq<string>, decode: string -> Option<Packet>) returns (events: seq<Event>, crash: Option<string>)
    ensures Trace(events, crash) == Run(lines, decode)
  {
    events := [];
    var i := 0;
    while true
      invariant i <= |lines|
      invariant Run(lines, decode) == Trace(events + Run(lines[i..], decode).events, Run(lines[i..], decode).crash)
      decreases |lines| - i
    {
      var line := if i < |lines| then lines[i] else [];
      if line == [] {
        events := events + [End];
        return events, None;
      }
      var effect := LineEvent(line, decode);
      if effect.Crash? {
        return events, Some(line);
      }
      assert lines[i..][1..] == lines[i + 1..];
      if effect.Deliver? {
        AppendAssociative(events, [effect.event], Run(lines[i + 1..], decode).events);
        events := events + [effect.event];
      }
      i := i + 1;
    }
  }
}
