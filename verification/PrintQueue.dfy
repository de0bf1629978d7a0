/** The text that fast reload streams to the control client.

    The reload thread appends lines to `output`; main moves them to `toPrint` and the event
    callback of the client connection writes them out, one current item at a time, as far as the
    socket takes them.
 */
module PrintQueue {

  // ----- what the client gets

  /** Owned by the reload thread, on the daemon's list to drain after that thread ended, or deleted. */
  datatype Place = Attached | InList | Gone

  /** Something that can happen to the queue; `socket(k)` is what the socket returns in the k-th turn of
      the callback: negative for an error, else the number of bytes it would take. */
  datatype Event = Produce(line: string) | Printout | Writable(socket: nat -> int) | ClientError | ThreadEnd

  /** What comes of a write event: the bytes that the socket took, the strings still to be written, and
      whether the connection broke. */
  datatype Drained = Drained(accepted: string, rest: seq<string>, broke: bool)

  function Drain(queue: seq<string>, socket: nat -> int, k: nat): Drained
    decreases |queue|
  {
    if queue == [] then Drained("", [], false)
    else
      var head, more := queue[0], Drain(queue[1..], socket, k + 1);
      if head == "" then more
      else if socket(k) < 0 then Drained("", [], true)
      else if socket(k) < |head| then Drained(head[..socket(k)], [head[socket(k)..]] + queue[1..], false)
      else more.(accepted := head + more.accepted)
  }

  /** The stream without items, offsets and event flags: lines that wait in the thread, strings that are
      on their way, and what the client has got. */
  datatype Stream = Stream(running: bool, place: Place, failed: bool,
                           output: seq<string>, queue: seq<string>, sent: string, produced: seq<string>)

  const START := Stream(true, Attached, false, [], [], "", [])

  function Produced(s: Stream, line: string): Stream {
    s.(output := s.output + [line], produced := s.produced + [line])
  }

  /** The lines are taken over; without a client they are dropped. */
  function TakenOver(s: Stream): Stream {
    s.(output := [], queue := if s.place != Gone then s.queue + s.output else s.queue)
  }

  function Broken(s: Stream): Stream {
    s.(place := Gone, failed := true, queue := [])
  }

  function Written(s: Stream, d: Drained): Stream {
    if d.broke then Broken(s.(sent := s.sent + d.accepted))
    else s.(sent := s.sent + d.accepted, queue := d.rest,
            place := if d.rest == [] && s.place == InList then Gone else s.place)
  }

  function Ended(s: Stream): Stream {
    var t := TakenOver(s).(running := false);
    if t.place == Gone then t else t.(place := if t.queue == [] then Gone else InList)
  }

  function StreamStep(s: Stream, e: Event): Stream {
    match e
    case Produce(line) => if s.running then Produced(s, line) else s
    case Printout => TakenOver(s)
    case Writable(socket) => if s.place != Gone then Written(s, Drain(s.queue, socket, 0)) else s
    case ClientError => if s.place != Gone then Broken(s) else s
    case ThreadEnd => if s.running then Ended(s) else s
  }

  function StreamRun(events: seq<Event>): Stream {
    if events == [] then START else StreamStep(StreamRun(events[..|events| - 1]), events[|events| - 1])
  }

  // ----- the code

  datatype Item = NoItem | Current(text: string, written: nat)

  function Unwritten(item: Item): string {
    if item.Current? && item.written <= |item.text| then item.text[item.written..] else ""
  }

  class Queue {
    var output: seq<string>
    var toPrint: seq<string>
    var item: Item
    var place: Place
    var listening: bool
    var running: bool      // the reload thread can still produce lines
    ghost var sent: string           // the bytes that the socket accepted
    ghost var produced: seq<string>  // every line that was queued
    ghost var failed: bool           // the connection broke

    /** The strings still to be written of what main has taken over. */
    ghost function Queued(): seq<string>
      reads this
    {
      (if item.Current? then [Unwritten(item)] else []) + toPrint
    }

    ghost function View(): Stream
      reads this
    {
      Stream(running, place, failed, output, Queued(), sent, produced)
    }

    /** Whatever is waiting to be written has the write event set. */
    ghost predicate Valid()
      reads this
    {
      && (item.Current? ==> item.written <= |item.text|)
      && (place == Gone ==> item == NoItem && toPrint == [])
      && (place != Gone && (item.Current? || toPrint != []) ==> listening)
    }

    constructor ()
      ensures Valid() && View() == START
    {
      output, toPrint, item := [], [], NoItem;
      place, listening, running := Attached, false, true;
      sent, produced, failed := "", [], false;
    }

    /** `fr_output_text`. */
    method OutputText(line: string)
      requires Valid() && running
      modifies this`output, this`produced
      ensures Valid() && View() == Produced(old(View()), line)
    {
      output := output + [line];
      produced := produced + [line];
    }

    /** `fr_main_perform_printout`: without a client the lines are dropped. */
    method PerformPrintout()
      requires Valid()
      modifies this`output, this`toPrint, this`listening
      ensures Valid() && View() == TakenOver(old(View())) && item == old(item)
      ensures toPrint == if place == Gone then old(toPrint) else old(toPrint) + old(output)
    {
      var out := output;
      output := [];
      if place == Gone {
        return;
      }
      ghost var first := if item.Current? then [Unwritten(item)] else [];
      assert first + (toPrint + out) == first + toPrint + out;
      toPrint := toPrint + out;
      if !listening {
        listening := true;
      }
    }

    /** `fr_client_pickup_next_item`. */
    method PickupNextItem()
      requires Valid() && item == NoItem
      modifies this`item, this`toPrint
      ensures Valid() && View() == old(View())
      ensures old(toPrint) == [] ==> item == NoItem && toPrint == []
      ensures old(toPrint) != [] ==> item == Current(old(toPrint)[0], 0) && toPrint == old(toPrint)[1..]
    {
      if toPrint == [] {
        item := NoItem;
        return;
      }
      item := Current(toPrint[0], 0);
      toPrint := toPrint[1..];
      assert Unwritten(item) == old(toPrint)[0];
    }

    /** `fr_printq_remove`, when the connection broke or when everything was written. */
    method Remove(broken: bool)
      requires Valid()
      modifies this`place, this`item, this`toPrint, this`listening, this`failed
      ensures Valid() && !listening
      ensures View() == old(View()).(place := Gone, queue := [], failed := broken || old(failed))
    {
      place, item, toPrint, listening := Gone, NoItem, [], false;
      failed := failed || broken;
    }

    /** `fr_client_send_item`: `r` is what the socket returned, -1 for an error, 0 for try later,
        else the number of bytes it took.  Tells whether the item was written to the end. */
    method SendItem(r: int) returns (complete: bool)
      requires Valid() && place != Gone && item.Current? && item.written < |item.text|
      requires -1 <= r <= |item.text| - item.written
      modifies this`place, this`item, this`toPrint, this`listening, this`failed, this`sent
      ensures Valid() && toPrint == (if r == -1 then [] else old(toPrint))
      ensures var head := old(Unwritten(item));
        if r == -1 then !complete && View() == Broken(old(View()))
        else
          && complete == (r == |head|) && item.Current? && Unwritten(item) == head[r..]
          && View() == old(View()).(sent := old(sent) + head[..r], queue := [head[r..]] + old(toPrint))
    {
      complete := false;
      ghost var head := Unwritten(item);
      if r == 0 {
        assert head[..0] == "" && sent + "" == sent;
        return;
      } else if r == -1 {
        Remove(true);
        return;
      }
      var from := item.written;
      item := item.(written := from + r);
      assert item.text[from..][r..] == item.text[from + r..];
      sent := sent + head[..r];
      complete := item.written == |item.text|;
    }

    /** The part of a turn of the loop in `fast_reload_client_callback` that writes the current item. */
    method WriteItem(r: int) returns (complete: bool)
      requires Valid() && place != Gone && item.Current?
      modifies this`place, this`item, this`toPrint, this`listening, this`failed, this`sent
      ensures Valid()
      ensures var head, v := old(Unwritten(item)), old(View());
        if head == "" || r >= |head| then
          && complete && item == NoItem && toPrint == old(toPrint)
          && View() == v.(sent := v.sent + head, queue := old(toPrint))
        else if r < 0 then
          !complete && View() == Broken(v)
        else
          !complete && View() == v.(sent := v.sent + head[..r], queue := [head[r..]] + old(toPrint))
    {
      ghost var head := Unwritten(item);
      complete := true;
      if item.written < |item.text| {
        var room := |item.text| - item.written;
        complete := SendItem(if r > room then room else if r < 0 then -1 else r);
        assert head[..|head|] == head;
      } else {
        assert sent + "" == sent;
      }
      if complete {
        item := NoItem;
      }
    }

    /** Nothing more to print for now: stop listening, or delete the queue once it is on the list. */
    method Finish()
      requires Valid() && place != Gone && item == NoItem && toPrint == []
      modifies this`place, this`item, this`toPrint, this`listening, this`failed
      ensures Valid() && View() == old(View()).(place := if old(place) == InList then Gone else old(place))
      ensures !listening
    {
      if place == InList {
        Remove(false);
        return;
      }
      listening := false;
    }

    /** `fast_reload_client_callback` on a write event: exactly the bytes that the socket accepts are
        sent, and the rest stays in order. */
    method ClientCallback(socket: nat -> int) returns (waiting: bool)
      requires Valid() && place != Gone
      modifies this`place, this`item, this`toPrint, this`listening, this`failed, this`sent
      ensures Valid() && View() == Written(old(View()), Drain(old(Queued()), socket, 0))
      ensures waiting <==> listening && place != Gone
      ensures waiting <==> Queued() != []
    {
      if item == NoItem {
        PickupNextItem();
      }
      if item == NoItem {
        NothingQueued(View(), socket);
        Finish();
        return false;
      }
      waiting := WriteItems(socket);
    }

    /** The loop over the items. */
    method WriteItems(socket: nat -> int) returns (waiting: bool)
      requires Valid() && place != Gone && item.Current?
      modifies this`place, this`item, this`toPrint, this`listening, this`failed, this`sent
      ensures Valid() && View() == Written(old(View()), Drain(old(Queued()), socket, 0))
      ensures waiting <==> listening && place != Gone
      ensures waiting <==> Queued() != []
    {
      var k: nat := 0;
      while true
        invariant Valid() && place != Gone && item.Current?
        invariant Written(View(), Drain(Queued(), socket, k)) == Written(old(View()), Drain(old(Queued()), socket, 0))
        decreases |toPrint|
      {
        WriteTurn(View(), socket, k);
        assert Queued()[0] == Unwritten(item) && Queued()[1..] == toPrint;
        var complete := WriteItem(socket(k));
        if !complete {
          return place != Gone;
        }
        if toPrint == [] {
          NothingQueued(View(), socket);
          Finish();
          return false;
        }
        PickupNextItem();
        k := k + 1;
      }
    }

    /** The queue's part of `fast_reload_thread_desetup`: the thread has ended. */
    method Desetup()
      requires Valid() && running
      modifies this
      ensures Valid() && View() == Ended(old(View()))
    {
      PerformPrintout();
      running := false;
      if place == Gone {
        return;
      }
      if toPrint == [] && item == NoItem {
        Remove(false);
      } else {
        place := InList;
      }
    }
  }

  lemma NothingQueued(s: Stream, socket: nat -> int)
    requires s.queue == [] && s.place != Gone
    ensures forall k :: Written(s, Drain([], socket, k)) == s.(place := if s.place == InList then Gone else s.place)
  {
    assert s.sent + "" == s.sent;
  }

  /** One turn of the loop is one step of draining. */
  lemma WriteTurn(s: Stream, socket: nat -> int, k: nat)
    requires s.queue != [] && s.place != Gone
    ensures var head, tail := s.queue[0], s.queue[1..];
      Written(s, Drain(s.queue, socket, k)) ==
        if head == "" || socket(k) >= |head| then
          Written(s.(sent := s.sent + head, queue := tail), Drain(tail, socket, k + 1))
        else if socket(k) < 0 then Broken(s)
        else s.(sent := s.sent + head[..socket(k)], queue := [head[socket(k)..]] + tail)
  {
    var head, more := s.queue[0], Drain(s.queue[1..], socket, k + 1);
    assert s.sent + head + more.accepted == s.sent + (head + more.accepted);
    assert s.sent + "" == s.sent;
  }

  // ----- the stream as a whole

  function Concat(lines: seq<string>): string {
    if lines == [] then "" else lines[0] + Concat(lines[1..])
  }

  lemma {:induction false} ConcatAppend(a: seq<string>, b: seq<string>)
    ensures Concat(a + b) == Concat(a) + Concat(b)
  {
    if a == [] {
      assert a + b == b;
    } else {
      ConcatAppend(a[1..], b);
      assert (a + b)[0] == a[0] && (a + b)[1..] == a[1..] + b;
      Associate(a[0], Concat(a[1..]), Concat(b));
    }
  }

  lemma Associate(a: string, b: string, c: string)
    ensures a + (b + c) == a + b + c
  {
  }

  /** The socket takes the queue from its start. */
  lemma {:induction false} DrainKeeps(queue: seq<string>, socket: nat -> int, k: nat)
    ensures var d := Drain(queue, socket, k);
      d.accepted <= Concat(queue) && (!d.broke ==> d.accepted + Concat(d.rest) == Concat(queue))
    decreases |queue|
  {
    if queue != [] {
      var head, tail, r := queue[0], queue[1..], socket(k);
      DrainKeeps(tail, socket, k + 1);
      if head != "" && 0 <= r < |head| {
        assert ([head[r..]] + tail)[1..] == tail;
        Cut(head, r, Concat(tail));
      } else if head != "" && r >= 0 {
        var more := Drain(tail, socket, k + 1);
        Prefix(head, more.accepted, Concat(tail));
        Associate(head, more.accepted, Concat(more.rest));
      }
    }
  }

  lemma Cut(head: string, r: nat, tail: string)
    requires r <= |head|
    ensures head[..r] + (head[r..] + tail) == head + tail && head[..r] <= head + tail
  {
  }

  lemma Prefix(head: string, a: string, b: string)
    requires a <= b
    ensures head + a <= head + b
  {
    assert (head + b)[..|head + a|] == head + a;
  }

  /** Nothing is lost, doubled or reordered while the client is connected. */
  ghost predicate StreamOk(s: Stream) {
    && (if s.failed then s.place == Gone && s.sent <= Concat(s.produced)
        else s.sent + Concat(s.queue) + Concat(s.output) == Concat(s.produced))
    && (s.place == Gone ==> s.queue == [] && (!s.failed ==> s.output == [] && !s.running))
    && (s.running ==> s.place != InList)
    && (!s.running ==> s.output == [])
  }

  lemma ProducedOk(s: Stream, line: string)
    requires StreamOk(s) && s.running
    ensures StreamOk(Produced(s, line))
  {
    ConcatAppend(s.output, [line]);
    ConcatAppend(s.produced, [line]);
    var all := Concat(s.produced);
    if s.failed {
      assert all <= all + Concat([line]);
    } else {
      Associate(s.sent + Concat(s.queue), Concat(s.output), Concat([line]));
    }
  }

  lemma TakenOverOk(s: Stream)
    requires StreamOk(s)
    ensures StreamOk(TakenOver(s))
  {
    if s.place != Gone {
      ConcatAppend(s.queue, s.output);
      Associate(s.sent, Concat(s.queue), Concat(s.output));
      var all := s.sent + (Concat(s.queue) + Concat(s.output));
      assert all + "" == all;
    }
  }

  lemma BrokenOk(s: Stream)
    requires StreamOk(s) && s.place != Gone
    ensures StreamOk(Broken(s))
  {
    Associate(s.sent, Concat(s.queue), Concat(s.output));
    assert s.sent <= s.sent + (Concat(s.queue) + Concat(s.output));
  }

  lemma WrittenOk(s: Stream, socket: nat -> int)
    requires StreamOk(s) && s.place != Gone
    ensures StreamOk(Written(s, Drain(s.queue, socket, 0)))
  {
    var d := Drain(s.queue, socket, 0);
    DrainKeeps(s.queue, socket, 0);
    if d.broke {
      BrokeOk(s, d.accepted);
    } else {
      Associate(s.sent, d.accepted, Concat(d.rest));
      if d.rest == [] && s.place == InList {
        assert s.output == [];
      }
    }
  }

  lemma BrokeOk(s: Stream, accepted: string)
    requires StreamOk(s) && s.place != Gone && accepted <= Concat(s.queue)
    ensures StreamOk(Broken(s.(sent := s.sent + accepted)))
  {
    Prefix(s.sent, accepted, Concat(s.queue));
    var all := s.sent + Concat(s.queue);
    assert all <= all + Concat(s.output);
  }

  lemma EndedOk(s: Stream)
    requires StreamOk(s) && s.running
    ensures StreamOk(Ended(s))
  {
    TakenOverOk(s);
  }

  lemma StepOk(s: Stream, e: Event)
    requires StreamOk(s)
    ensures StreamOk(StreamStep(s, e))
  {
    match e
    case Produce(line) => if s.running { ProducedOk(s, line); }
    case Printout => TakenOverOk(s);
    case Writable(socket) => if s.place != Gone { WrittenOk(s, socket); }
    case ClientError => if s.place != Gone { BrokenOk(s); }
    case ThreadEnd => if s.running { EndedOk(s); }
  }

  lemma {:induction false} RunOk(events: seq<Event>)
    ensures StreamOk(StreamRun(events))
  {
    if events != [] {
      RunOk(events[..|events| - 1]);
      StepOk(StreamRun(events[..|events| - 1]), events[|events| - 1]);
    }
  }

  /** The lines that are produced, until the thread ends. */
  ghost function Lines(events: seq<Event>): seq<string> {
    if events == [] then []
    else
      var front, last := events[..|events| - 1], events[|events| - 1];
      Lines(front) + (if last.Produce? && ThreadEnd !in front then [last.line] else [])
  }

  lemma StepProduces(s: Stream, e: Event)
    ensures var t := StreamStep(s, e);
      && t.running == (s.running && !e.ThreadEnd?)
      && t.produced == s.produced + (if e.Produce? && s.running then [e.line] else [])
  {
    assert s.produced + [] == s.produced;
  }

  lemma {:induction false} RunProduces(events: seq<Event>)
    ensures var s := StreamRun(events); s.produced == Lines(events) && (s.running <==> ThreadEnd !in events)
  {
    if events != [] {
      var front, last := events[..|events| - 1], events[|events| - 1];
      RunProduces(front);
      StepProduces(StreamRun(front), last);
      assert ThreadEnd in events <==> ThreadEnd in front || last == ThreadEnd by {
        assert events == front + [last];
      }
    }
  }

  /** Every interleaving of production, moves, partial writes, errors and the end of the thread: the
      bytes at the client are those that the socket accepted, a prefix of all lines in order, and all
      of them once nothing is queued, unless the connection broke. */
  method AnyRun(events: seq<Event>) returns (q: Queue)
    ensures q.Valid() && q.View() == StreamRun(events) && q.produced == Lines(events)
    ensures q.sent <= Concat(Lines(events))
    ensures !q.failed && q.output == [] && q.toPrint == [] && q.item == NoItem ==> q.sent == Concat(Lines(events))
    ensures !q.failed && q.place == Gone ==> q.sent == Concat(Lines(events))
    ensures q.place != Gone && !q.listening ==> q.item == NoItem && q.toPrint == []
  {
    q := new Queue();
    for i := 0 to |events|
      invariant q.Valid() && fresh(q) && q.View() == StreamRun(events[..i])
    {
      assert events[..i + 1][..i] == events[..i];
      match events[i]
      case Produce(line) => if q.running { q.OutputText(line); }
      case Printout => q.PerformPrintout();
      case Writable(socket) => if q.place != Gone { var _ := q.ClientCallback(socket); }
      case ClientError => if q.place != Gone { q.Remove(true); }
      case ThreadEnd => if q.running { q.Desetup(); }
    }
    assert events[..|events|] == events;
    RunOk(events);
    RunProduces(events);
    Sent(q.View());
  }

  /** What is sent is the start of what was produced, and all of it when nothing is left or the queue was
      deleted without an error. */
  lemma Sent(s: Stream)
    requires StreamOk(s)
    ensures s.sent <= Concat(s.produced)
    ensures !s.failed && s.output == [] && s.queue == [] ==> s.sent == Concat(s.produced)
    ensures !s.failed && s.place == Gone ==> s.sent == Concat(s.produced)
  {
    if !s.failed {
      Associate(s.sent, Concat(s.queue), Concat(s.output));
      assert s.sent <= s.sent + (Concat(s.queue) + Concat(s.output));
      assert s.sent + "" + "" == s.sent;
    }
  }
}
