/** The pipe between two applications: a stream of bytes carried by messages of at most 16 bytes. */
module Pipes {
  import opened Basics
  import opened Errors

  const PIPE_DATA: nat := 16

  /** A message to the reading task: a piece of the stream, the end of it if empty, or something else. */
  datatype Message = Pipe(data: seq<Byte>) | Other

  /** The bytes still in the queue. */
  function Payloads(msgs: seq<Message>): seq<Byte> {
    if msgs == [] then []
    else (if msgs[0].Pipe? then msgs[0].data else []) + Payloads(msgs[1..])
  }

  lemma {:induction false} PayloadsAppend(msgs: seq<Message>, m: Message)
    ensures Payloads(msgs + [m]) == Payloads(msgs) + if m.Pipe? then m.data else []
  {
    if msgs == [] {
      assert msgs + [m] == [m] && [m][1..] == [];
    } else {
      var all, rest := msgs + [m], msgs[1..];
      PayloadsAppend(rest, m);
      assert all[0] == msgs[0];
      assert all[1..] == rest + [m];
    }
  }

  /** The messages that carry some bytes: full ones, and a last one with the rest. */
  function Pieces(buf: seq<Byte>): seq<Message> {
    if buf == [] then []
    else
      var n := Min(|buf|, PIPE_DATA);
      [Pipe(buf[..n])] + Pieces(buf[n..])
  }

  lemma NextPiece(buf: seq<Byte>, sent: nat, n: nat)
    requires sent < |buf| && n == Min(|buf| - sent, PIPE_DATA)
    ensures Pieces(buf[sent..]) == [Pipe(buf[sent..sent + n])] + Pieces(buf[sent + n..])
    ensures buf[..sent + n] == buf[..sent] + buf[sent..sent + n]
  {
    assert buf[sent..][..n] == buf[sent..sent + n] && buf[sent..][n..] == buf[sent + n..];
  }

  lemma AllPieces(buf: seq<Byte>)
    ensures buf[0..] == buf && Pieces(buf[|buf|..]) == []
  {
  }

  /** The end of the stream, once it is announced, is the last pipe message of the queue. */
  predicate EndsLast(msgs: seq<Message>, finished: bool, closed: bool) {
    && (forall i :: 0 <= i < |msgs| && msgs[i].Pipe? ==> |msgs[i].data| <= PIPE_DATA)
    && (forall i :: 0 <= i < |msgs| && msgs[i] == Pipe([]) ==>
          finished && !closed && forall j :: i < j < |msgs| ==> msgs[j].Other?)
    && (closed ==> finished && forall i :: 0 <= i < |msgs| ==> msgs[i].Other?)
  }

  lemma {:induction false} NoPayload(msgs: seq<Message>)
    requires forall i :: 0 <= i < |msgs| ==> msgs[i].Other?
    ensures Payloads(msgs) == []
  {
    if msgs != [] {
      NoPayload(msgs[1..]);
    }
  }

  class PipeDescriptor {
    var msgs: seq<Message>
    var data: seq<Byte>
    var closed: bool
    ghost var written: seq<Byte>
    ghost var read: seq<Byte>
    ghost var finished: bool

    constructor ()
      ensures Valid() && msgs == [] && data == [] && !closed && written == read == [] && !finished
    {
      msgs, data, closed := [], [], false;
      written, read, finished := [], [], false;
    }

    /** What was written is what was read, then what is buffered, then what is in the queue. */
    ghost predicate Valid()
      reads this
    {
      && written == read + data + Payloads(msgs) && |data| <= PIPE_DATA
      && EndsLast(msgs, finished, closed) && (closed ==> data == [])
    }

    /** One message of the stream; a step of its own, since the reader may run between two of them. */
    method SendPiece(piece: seq<Byte>)
      requires Valid() && !finished && 0 < |piece| <= PIPE_DATA
      modifies this`msgs, this`written
      ensures Valid() && msgs == old(msgs) + [Pipe(piece)] && written == old(written) + piece
    {
      PayloadsAppend(msgs, Pipe(piece));
      msgs := msgs + [Pipe(piece)];
      written := written + piece;
    }

    /** All of the bytes, in pieces. */
    method Write(buf: seq<Byte>) returns (len: nat)
      requires Valid() && !finished
      modifies this`msgs, this`written
      ensures Valid() && len == |buf| && written == old(written) + buf && msgs == old(msgs) + Pieces(buf)
    {
      hide EndsLast, Payloads, Pieces;
      var sentBytes := 0;
      AllPieces(buf);
      while sentBytes < |buf|
        invariant 0 <= sentBytes <= |buf| && Valid() && written == old(written) + buf[..sentBytes]
        invariant msgs + Pieces(buf[sentBytes..]) == old(msgs) + Pieces(buf)
      {
        var n := Min(|buf| - sentBytes, PIPE_DATA);
        NextPiece(buf, sentBytes, n);
        SendPiece(buf[sentBytes..sentBytes + n]);
        sentBytes := sentBytes + n;
      }
      len := |buf|;
    }

    method FinishWrite()
      requires Valid() && !finished
      modifies this`msgs, this`finished
      ensures Valid() && finished && msgs == old(msgs) + [Pipe([])]
    {
      PayloadsAppend(msgs, Pipe([]));
      msgs := msgs + [Pipe([])];
      finished := true;
    }

    /** A message that has nothing to do with the pipe. */
    method Interrupt()
      requires Valid()
      modifies this`msgs
      ensures Valid() && msgs == old(msgs) + [Other]
    {
      PayloadsAppend(msgs, Other);
      msgs := msgs + [Other];
    }

    /**
     What Read does up to the next point where others may run: it answers from the buffer, or that the stream
     has ended, or takes one message off the queue.  None means it goes on waiting.  It answers 0 only when
     the writer has finished and every byte was read, and then nothing but 0.
     */
    method ReadStep(len: nat) returns (bytes: Option<seq<Byte>>)
      requires Valid() && len >= 1
      modifies this`msgs, this`data, this`closed, this`read
      ensures Valid() && (bytes.None? ==> read == old(read))
      ensures bytes.Some? ==> |bytes.value| <= len && read == old(read) + bytes.value
      ensures bytes == Some([]) ==> finished && closed && read == written
      ensures old(finished && read == written) ==> bytes == None || bytes == Some([])
      ensures bytes.None? <==> old(data == [] && !closed && (msgs == [] || msgs[0].Other?))
      ensures msgs == old(if data == [] && !closed && msgs != [] then msgs[1..] else msgs)
      ensures closed <==> old(closed || (data == [] && msgs != [] && msgs[0] == Pipe([])))
      ensures bytes.Some? && old(data == [] && !closed) ==>
                |bytes.value| == Min(|old(msgs[0].data)|, len)
      ensures old(data) != [] ==> bytes.Some? && |bytes.value| == Min(|old(data)|, len)
    {
      if |data| > 0 {
        var copyBytes := Min(|data|, len);
        bytes := Some(data[..copyBytes]);
        assert data == data[..copyBytes] + data[copyBytes..];
        assert read + data + Payloads(msgs) == read + data[..copyBytes] + data[copyBytes..] + Payloads(msgs);
        data := data[copyBytes..];
        read := read + bytes.value;
        return;
      }
      if closed {
        NoPayload(msgs);
        return Some([]);
      }
      if msgs == [] {
        return None;
      }
      var msg := msgs[0];
      TakeFirst(msgs, finished);
      ghost var all := Payloads(msgs);
      msgs := msgs[1..];
      if msg.Other? {
        return None;
      }
      if |msg.data| == 0 {
        closed := true;
        NoPayload(msgs);
        return Some([]);
      }
      var copyBytes := Min(|msg.data|, len);
      bytes := Some(msg.data[..copyBytes]);
      data := msg.data[copyBytes..];
      assert msg.data == msg.data[..copyBytes] + msg.data[copyBytes..];
      read := read + bytes.value;
    }
  }

  /** Taking the first message: what is left still ends properly, and nothing follows the end. */
  lemma TakeFirst(msgs: seq<Message>, finished: bool)
    requires msgs != [] && EndsLast(msgs, finished, false)
    ensures EndsLast(msgs[1..], finished, msgs[0] == Pipe([]))
    ensures msgs[0] == Pipe([]) ==> finished && forall i :: 0 <= i < |msgs[1..]| ==> msgs[1..][i].Other?
    ensures msgs[0].Pipe? ==> |msgs[0].data| <= PIPE_DATA
  {
    var rest := msgs[1..];
    assert msgs[0] == Pipe([]) ==> forall k :: 0 < k < |msgs| ==> msgs[k].Other?;
    forall i | 0 <= i < |rest| && rest[i] == Pipe([]) ensures finished && msgs[0] != Pipe([])
      && forall j :: i < j < |rest| ==> rest[j].Other?
    {
      assert msgs[i + 1] == Pipe([]);
      forall j | i < j < |rest| ensures rest[j].Other? {
        assert msgs[j + 1].Other?;
      }
    }
  }

  // ----- Any interleaving -----

  datatype Step = Send(piece: seq<Byte>) | Finish | Interruption | Reading(len: nat)

  /** The writer sends pieces of 1 to 16 bytes and nothing after it finished; the reader asks for at least one byte. */
  predicate Proper(steps: seq<Step>) {
    && (forall i :: 0 <= i < |steps| ==>
          match steps[i]
          case Send(piece) => 0 < |piece| <= PIPE_DATA
          case Reading(len) => len >= 1
          case _ => true)
    && forall i, j :: 0 <= i < j < |steps| && steps[i].Finish? ==> !steps[j].Send? && !steps[j].Finish?
  }

  function Sent(steps: seq<Step>): seq<Byte> {
    if steps == [] then []
    else Sent(steps[..|steps| - 1]) + if steps[|steps| - 1].Send? then steps[|steps| - 1].piece else []
  }

  function Concat(answers: seq<seq<Byte>>): seq<Byte> {
    if answers == [] then [] else Concat(answers[..|answers| - 1]) + answers[|answers| - 1]
  }

  /**
   Whatever the order of the writer's and the reader's steps: the answers the reader got are, together, a prefix
   of what was sent; and if one of them was empty the writer had finished and nothing was missing.
   */
  method Run(steps: seq<Step>) returns (answers: seq<seq<Byte>>)
    requires Proper(steps)
    ensures Concat(answers) <= Sent(steps)
    ensures [] in answers ==> Finish in steps && Concat(answers) == Sent(steps)
  {
    hide Payloads, EndsLast, PipeDescriptor.Valid, Concat, Sent;
    NothingYet();
    var p := new PipeDescriptor();
    answers := [];
    var i := 0;
    while i < |steps|
      invariant 0 <= i <= |steps| && p.Valid() && fresh(p)
      invariant p.written == Sent(steps[..i]) && p.read == Concat(answers)
      invariant p.finished <==> Finish in steps[..i]
      invariant [] in answers ==> p.finished && p.read == p.written
    {
      assert steps[..i + 1] == steps[..i] + [steps[i]];
      SentMore(steps[..i], steps[i]);
      match steps[i] {
        case Send(piece) =>
          NotFinished(steps, i);
          p.SendPiece(piece);
        case Finish =>
          NotFinished(steps, i);
          p.FinishWrite();
        case Interruption => p.Interrupt();
        case Reading(len) =>
          var answer := p.ReadStep(len);
          if answer.Some? {
            ConcatMore(answers, answer.value);
            answers := answers + [answer.value];
          }
      }
      i := i + 1;
    }
    assert steps[..i] == steps;
    ReadPrefix(p);
  }

  lemma NothingYet()
    ensures Sent([]) == [] && Concat([]) == []
  {
  }

  lemma SentMore(steps: seq<Step>, s: Step)
    ensures Sent(steps + [s]) == Sent(steps) + if s.Send? then s.piece else []
  {
    assert (steps + [s])[..|steps|] == steps;
  }

  lemma ConcatMore(answers: seq<seq<Byte>>, a: seq<Byte>)
    ensures Concat(answers + [a]) == Concat(answers) + a
  {
    assert (answers + [a])[..|answers|] == answers;
  }

  lemma NotFinished(steps: seq<Step>, i: nat)
    requires Proper(steps) && i < |steps| && (steps[i].Send? || steps[i].Finish?)
    ensures Finish !in steps[..i]
  {
    forall j | 0 <= j < i ensures steps[j] != Finish {
    }
  }

  lemma ReadPrefix(p: PipeDescriptor)
    requires p.Valid()
    ensures p.read <= p.written
  {
    assert p.written == p.read + (p.data + Payloads(p.msgs));
  }
}
