/** The sending side of tcp-large-transfer.cc: a resumable writer over a socket that takes what it likes. */
module TcpWriter {
  const TOTAL_TX_BYTES: nat := 2000000
  const WRITE_SIZE: nat := 1040

  /** What the socket answers in one turn of the loop: the room it reports, and what `Send` returns. */
  datatype Answer = Answer(available: nat, sent: int)

  /** The byte that belongs at position `i` of the stream. */
  function Letter(i: nat): int {
    97 + i % 26
  }

  /** The letters from position `from` on. */
  ghost predicate LettersFrom(bytes: seq<int>, from: nat) {
    forall i :: 0 <= i < |bytes| ==> bytes[i] == Letter(from + i)
  }

  /** 1040 is a multiple of 26, so an offset into the buffer names the same letter as the position. */
  lemma OffsetLetter(position: nat, i: nat)
    ensures Letter(position % WRITE_SIZE + i) == Letter(position + i)
  {
  }

  /** What one upcall comes to: the bytes sent in all, and whether it closes the socket. */
  datatype Served = Served(current: nat, closes: bool)

  function Min(a: nat, b: nat): nat {
    if b < a then b else a
  }

  /** What is offered at a position: no further than the end of the buffer, of the transfer and of the room. */
  function Offer(current: nat, available: nat): nat
    requires current < TOTAL_TX_BYTES
  {
    Min(Min(WRITE_SIZE - current % WRITE_SIZE, TOTAL_TX_BYTES - current), available)
  }

  /** The offer is the largest amount that stays inside the buffer, the transfer and the room. */
  lemma OfferLargest(current: nat, available: nat)
    requires current < TOTAL_TX_BYTES
    ensures var n := Offer(current, available);
      && current % WRITE_SIZE + n <= WRITE_SIZE && current + n <= TOTAL_TX_BYTES && n <= available
      && (current % WRITE_SIZE + n == WRITE_SIZE || current + n == TOTAL_TX_BYTES || n == available)
  {
  }

  /** An upcall ends when all is sent, when there is no room, or when `Send` fails. */
  function Serve(current: nat, answers: seq<Answer>): Served
    decreases |answers|
  {
    if current >= TOTAL_TX_BYTES then Served(current, true)
    else if answers == [] then Served(current, false)
    else if answers[0].available == 0 then Served(current, true)
    else if answers[0].sent < 0 then Served(current, false)
    else Serve(current + Min(answers[0].sent, Offer(current, answers[0].available)), answers[1..])
  }

  lemma ServeStep(current: nat, answers: seq<Answer>, turn: nat)
    requires current < TOTAL_TX_BYTES && turn < |answers| && answers[turn].available > 0
    ensures Serve(current, answers[turn..]) ==
      if answers[turn].sent < 0 then Served(current, false)
      else Serve(current + Min(answers[turn].sent, Offer(current, answers[turn].available)), answers[turn + 1..])
  {
  }

  lemma ServeEnd(current: nat, answers: seq<Answer>, turn: nat)
    requires turn <= |answers|
    requires turn < |answers| && current < TOTAL_TX_BYTES ==> answers[turn].available == 0
    ensures Serve(current, answers[turn..]) == Served(current, turn < |answers| || current >= TOTAL_TX_BYTES)
  {
  }

  /** A socket that always has room and takes at least a byte gets the whole transfer. */
  lemma {:induction false} EverythingSent(current: nat, answers: seq<Answer>)
    requires current <= TOTAL_TX_BYTES && |answers| >= TOTAL_TX_BYTES - current
    requires forall k :: 0 <= k < |answers| ==> answers[k].available >= 1 && answers[k].sent >= 1
    ensures Serve(current, answers).current == TOTAL_TX_BYTES && Serve(current, answers).closes
    decreases TOTAL_TX_BYTES - current
  {
    if current < TOTAL_TX_BYTES {
      var taken := Min(answers[0].sent, Offer(current, answers[0].available));
      assert taken >= 1;
      EverythingSent(current + taken, answers[1..]);
    }
  }

  /** A socket with room for a whole buffer, which takes all it is offered, gets a whole buffer a turn. */
  lemma {:induction false} FullTurns(current: nat, answers: seq<Answer>)
    requires current <= TOTAL_TX_BYTES && current % WRITE_SIZE == 0
    requires forall k :: 0 <= k < |answers| ==> answers[k].available >= WRITE_SIZE && answers[k].sent >= WRITE_SIZE
    ensures Serve(current, answers).current == current + Min(|answers| * WRITE_SIZE, TOTAL_TX_BYTES - current)
    decreases |answers|
  {
    if current < TOTAL_TX_BYTES && answers != [] {
      if current + WRITE_SIZE <= TOTAL_TX_BYTES {
        FullTurns(current + WRITE_SIZE, answers[1..]);
      }
    }
  }

  /** The first turn without room, if no `Send` has failed before it. */
  predicate NoRoomAt(answers: seq<Answer>, k: nat) {
    && k < |answers| && answers[k].available == 0
    && forall j :: 0 <= j < k ==> answers[j].available > 0 && answers[j].sent >= 0
  }

  lemma NoRoomLater(answers: seq<Answer>, k: nat)
    requires answers != [] && answers[0].available > 0 && answers[0].sent >= 0
    ensures NoRoomAt(answers, k + 1) <==> NoRoomAt(answers[1..], k)
    ensures !NoRoomAt(answers, 0)
  {
    var rest := answers[1..];
    assert forall j :: 0 <= j < |rest| ==> rest[j] == answers[j + 1];
    if NoRoomAt(rest, k) {
      forall j | 0 <= j < k + 1 ensures answers[j].available > 0 && answers[j].sent >= 0 {
        assert j > 0 ==> rest[j - 1] == answers[j];
      }
    }
  }

  /** An upcall closes the socket if and only if it has sent everything, or comes to a turn without room. */
  lemma {:induction false} ClosesIff(current: nat, answers: seq<Answer>)
    requires current <= TOTAL_TX_BYTES
    ensures Serve(current, answers).closes <==>
      Serve(current, answers).current == TOTAL_TX_BYTES || exists k: nat :: NoRoomAt(answers, k)
    decreases |answers|
  {
    if current < TOTAL_TX_BYTES && answers != [] && answers[0].available > 0 && answers[0].sent >= 0 {
      ClosesIff(current + Min(answers[0].sent, Offer(current, answers[0].available)), answers[1..]);
      hide NoRoomAt;
      if k: nat :| NoRoomAt(answers, k) {
        NoRoomLater(answers, 0);
        NoRoomLater(answers, k - 1);
      }
      if k: nat :| NoRoomAt(answers[1..], k) {
        NoRoomLater(answers, k);
      }
    } else if answers != [] && answers[0].available == 0 {
      assert NoRoomAt(answers, 0);
    }
  }

  class Sender {
    var data: array<int>
    var currentTxBytes: nat
    ghost var stream: seq<int>   // the bytes that the socket has accepted
    var closed: bool

    ghost predicate Valid()
      reads this, data
    {
      && data.Length == WRITE_SIZE
      && LettersFrom(data[..], 0)
      && currentTxBytes == |stream| <= TOTAL_TX_BYTES
      && LettersFrom(stream, 0)
    }

    /** Fill the buffer with the alphabet, again and again. */
    constructor ()
      ensures Valid() && fresh(data) && stream == [] && !closed
      ensures forall k :: 0 <= k < WRITE_SIZE ==> data[k] == 97 + k % 26
    {
      data := new int[WRITE_SIZE];
      currentTxBytes, stream, closed := 0, [], false;
      new;
      for i := 0 to WRITE_SIZE
        invariant data.Length == WRITE_SIZE && fresh(data)
        invariant currentTxBytes == 0 && stream == [] && !closed
        invariant forall k :: 0 <= k < i ==> data[k] == Letter(k)
      {
        data[i] := 97 + i % 26;
      }
    }

    /** `answers` is what the socket will say, turn by turn; it never takes more than it is offered. */
    method WriteUntilBufferFull(answers: seq<Answer>)
      requires Valid()
      modifies this`currentTxBytes, this`stream, this`closed
      ensures Valid() && old(stream) <= stream
      ensures var served := Serve(old(currentTxBytes), answers);
              currentTxBytes == served.current && closed == (old(closed) || served.closes)
    {
      hide LettersFrom, Letter, Serve;
      var turns := 0;
      assert answers[0..] == answers;
      while turns < |answers| && currentTxBytes < TOTAL_TX_BYTES && answers[turns].available > 0
        invariant Valid() && turns <= |answers|
        invariant old(stream) <= stream && closed == old(closed)
        invariant Serve(old(currentTxBytes), answers) == Serve(currentTxBytes, answers[turns..])
      {
        var left := TOTAL_TX_BYTES - currentTxBytes;
        var dataOffset := currentTxBytes % WRITE_SIZE;
        var toWrite := WRITE_SIZE - dataOffset;
        toWrite := Min(toWrite, left);
        toWrite := Min(toWrite, answers[turns].available);
        var offered := data[dataOffset..dataOffset + toWrite];
        var amountSent := if answers[turns].sent < |offered| then answers[turns].sent else |offered|;
        ServeStep(currentTxBytes, answers, turns);
        turns := turns + 1;
        if amountSent < 0 {
          return;
        }
        ghost var accepted := data[..][dataOffset..dataOffset + amountSent];
        SliceLetters(data[..], currentTxBytes, amountSent);
        assert offered == data[..][dataOffset..dataOffset + toWrite];
        PrefixOfSlice(data[..], dataOffset, toWrite, amountSent);
        LettersAppend(stream, accepted);
        stream := stream + offered[..amountSent];
        currentTxBytes := currentTxBytes + amountSent;
      }
      ServeEnd(currentTxBytes, answers, turns);
      // Otherwise the answers run out before the call has come to its end.
      if turns < |answers| || currentTxBytes == TOTAL_TX_BYTES {
        closed := true;
      }
    }
  }

  /** What the buffer holds at the offset of a position are the letters from that position on. */
  lemma SliceLetters(data: seq<int>, position: nat, n: nat)
    requires |data| == WRITE_SIZE && LettersFrom(data, 0) && position % WRITE_SIZE + n <= WRITE_SIZE
    ensures LettersFrom(data[position % WRITE_SIZE..position % WRITE_SIZE + n], position)
  {
    var offset := position % WRITE_SIZE;
    var slice := data[offset..offset + n];
    forall i | 0 <= i < |slice| ensures slice[i] == Letter(position + i) {
      assert data[offset + i] == Letter(0 + (offset + i));
      OffsetLetter(position, i);
    }
  }

  lemma PrefixOfSlice(s: seq<int>, start: nat, length: nat, n: nat)
    requires start + length <= |s| && n <= length
    ensures s[start..start + length][..n] == s[start..start + n]
  {
  }

  lemma LettersAppend(stream: seq<int>, more: seq<int>)
    requires LettersFrom(stream, 0) && LettersFrom(more, |stream|)
    ensures LettersFrom(stream + more, 0)
  {
  }

  /** Any number of upcalls: the accepted stream is the alphabet over and over, with no gap and no repeat,
      and the bytes already taken are never taken back. */
  method Transfer(upcalls: seq<seq<Answer>>) returns (sender: Sender)
    ensures sender.Valid()
    ensures sender.currentTxBytes == |sender.stream| <= TOTAL_TX_BYTES
    ensures forall i :: 0 <= i < |sender.stream| ==> sender.stream[i] == 97 + i % 26
  {
    sender := new Sender();
    for k := 0 to |upcalls|
      invariant fresh(sender) && sender.Valid()
    {
      sender.WriteUntilBufferFull(upcalls[k]);
    }
  }
}
