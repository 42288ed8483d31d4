/** labuart/networking.c: one peer's side of the two-player handshake. */
module Handshake {
  import opened Bytes

  const JOIN_REQUEST: Byte := 0x4A // 'J'
  const ACK: Byte := 0x4F // 'O'
  const GET_RESPONSE: Byte := 0x50 // 'P'
  const NUL: Byte := 0
  const PASSWORD: seq<Byte> := [0x53, 0x54, 0x41, 0x52, 0x54] // "START"
  const RESPONSE: seq<Byte> := [0x42, 0x45, 0x47, 0x49, 0x4E] // "BEGIN"
  const PASSWORD_SIZE: nat := 5
  const SYNC_TRIES: nat := 60

  datatype NetState = Waiting | Linked | Connected | Cleanup

  /** `state`, `idx` and `tries`, with the bytes received and not yet read. */
  datatype Peer = Peer(state: NetState, idx: nat, tries: nat, inbox: seq<Byte>)

  /** A string literal as C has it: its last character is followed by NUL, and nothing beyond that may be read. */
  function Letter(word: seq<Byte>, i: nat): (b: Byte)
    requires |word| == PASSWORD_SIZE && i <= PASSWORD_SIZE
  {
    if i < PASSWORD_SIZE then word[i] else NUL
  }

  /** What a received byte does in the waiting state: the new state and index, and the bytes sent. */
  function LinkByte(idx: nat, b: Byte): (r: (NetState, nat, seq<Byte>))
    requires idx <= PASSWORD_SIZE
  {
    if b == ACK then
      if idx == PASSWORD_SIZE then (Linked, 0, [GET_RESPONSE]) else (Waiting, idx + 1, [PASSWORD[idx]])
    else if b == JOIN_REQUEST then (Waiting, 0, [ACK])
    else if b == Letter(PASSWORD, idx) then
      if idx + 1 == PASSWORD_SIZE then (Linked, 0, [ACK]) else (Waiting, idx + 1, [ACK])
    else (Waiting, idx, [])
  }

  /** What a received byte does in the linked state. */
  function ConnectByte(idx: nat, b: Byte): (r: (NetState, nat, seq<Byte>))
    requires idx <= PASSWORD_SIZE
  {
    if b == ACK then
      if idx == PASSWORD_SIZE then (Connected, idx, []) else (Linked, idx + 1, [RESPONSE[idx]])
    else if b == GET_RESPONSE then (Linked, 1, [RESPONSE[0]])
    else if b == Letter(RESPONSE, idx) then
      (if idx + 1 == PASSWORD_SIZE then Connected else Linked, idx + 1, [ACK])
    else (Linked, idx, [])
  }

  /** What a peer does with a byte. */
  function Handled(role: (NetState, nat), b: Byte): (r: (NetState, nat, seq<Byte>))
    requires role.1 <= PASSWORD_SIZE
  {
    if role.0 == Waiting then LinkByte(role.1, b) else ConnectByte(role.1, b)
  }

  function Take(p: Peer, r: (NetState, nat, seq<Byte>)): (q: Peer)
    requires p.inbox != []
  {
    Peer(r.0, r.1, 0, p.inbox[1..])
  }

  /** A poll that found nothing; the sixty-first in a row starts over. */
  function Idle(p: Peer): (q: Peer) {
    if p.tries + 1 > SYNC_TRIES then Peer(Cleanup, 0, 0, p.inbox) else p.(tries := p.tries + 1)
  }

  /** The cleanup stage of `uart_sync`: queued bytes are thrown away and a join request goes out. */
  function CleanupStage(p: Peer): (r: (Peer, seq<Byte>)) {
    if p.state == Cleanup then (Peer(Waiting, p.idx, 0, []), [JOIN_REQUEST]) else (p, [])
  }

  function WaitStage(p: Peer): (r: (Peer, seq<Byte>))
    requires p.idx <= PASSWORD_SIZE
  {
    if p.state != Waiting then (p, [])
    else if p.inbox == [] then (Idle(p), [])
    else var r := LinkByte(p.idx, p.inbox[0]); (Take(p, r), r.2)
  }

  function LinkStage(p: Peer): (r: (Peer, seq<Byte>))
    requires p.state == Linked ==> p.idx <= PASSWORD_SIZE
  {
    if p.state != Linked then (p, [])
    else if p.inbox == [] then (Idle(p), [])
    else var r := ConnectByte(p.idx, p.inbox[0]); (Take(p, r), r.2)
  }

  /** `uart_sync`: the three stages, each falling through to the next; the result holds the bytes sent. */
  function Sync(p: Peer): (r: (Peer, seq<Byte>))
    requires p.idx <= PASSWORD_SIZE
  {
    var (p1, out1) := CleanupStage(p);
    var (p2, out2) := WaitStage(p1);
    var (p3, out3) := LinkStage(p2);
    (p3, out1 + out2 + out3)
  }

  // ----- What one call does ----------

  /** A cleanup ends in the waiting state, with a join request sent. */
  lemma SyncCleansUp(p: Peer)
    requires p.state == Cleanup && p.idx <= PASSWORD_SIZE
    ensures Sync(p) == (Peer(Waiting, p.idx, 1, []), [JOIN_REQUEST])
  {
    var none: seq<Byte> := [];
    assert [JOIN_REQUEST] + none + none == [JOIN_REQUEST];
  }

  /** With something queued: one byte is read, or the first two when the first one links a waiting peer. */
  lemma SyncReads(p: Peer)
    requires p.idx <= 5 && p.inbox != [] && (p.state == Waiting || p.state == Linked)
    ensures var (state, idx, out) := Handled((p.state, p.idx), p.inbox[0]);
            if p.state == Waiting && state == Linked then
              idx == 0 &&
              if |p.inbox| == 1 then Sync(p) == (Peer(Linked, 0, 1, []), out)
              else
                var (state', idx', out') := Handled((Linked, 0), p.inbox[1]);
                Sync(p) == (Peer(state', idx', 0, p.inbox[2..]), out + out')
            else Sync(p) == (Peer(state, idx, 0, p.inbox[1..]), out)
  {
    var none: seq<Byte> := [];
    var (state, idx, out) := Handled((p.state, p.idx), p.inbox[0]);
    assert none + out + none == none + none + out == out;
    if p.state == Waiting && state == Linked && |p.inbox| > 1 {
      var out' := Handled((Linked, 0), p.inbox[1]).2;
      assert none + out + out' == out + out' && p.inbox[1..][1..] == p.inbox[2..];
    }
  }

  /** With nothing queued: nothing is sent, and the sixty-first such call in a row starts the peer over. */
  lemma SyncIdles(p: Peer)
    requires p.idx <= 5 && p.inbox == [] && (p.state == Waiting || p.state == Linked)
    ensures Sync(p) == (if p.tries < 60 then p.(tries := p.tries + 1) else Peer(Cleanup, 0, 0, []), [])
  {
    var none: seq<Byte> := [];
    assert none + none + none == none;
  }

  /** An acknowledgement is answered with the next letter, and after the last one with the step to the next state. */
  lemma AckSpells(idx: nat)
    requires idx <= 5
    ensures LinkByte(idx, 0x4F) == if idx < 5 then (Waiting, idx + 1, ["START"[idx] as int])
                                   else (Linked, 0, ['P' as int])
    ensures ConnectByte(idx, 0x4F) == if idx < 5 then (Linked, idx + 1, ["BEGIN"[idx] as int])
                                      else (Connected, 5, [])
  {
  }

  /** The bytes of the protocol as the characters they are. */
  lemma BytesAreCharacters()
    ensures JOIN_REQUEST == 'J' as int && ACK == 'O' as int && GET_RESPONSE == 'P' as int && NUL == 0
    ensures |PASSWORD| == |RESPONSE| == PASSWORD_SIZE == 5
    ensures forall i | 0 <= i < 5 :: PASSWORD[i] == "START"[i] as int && RESPONSE[i] == "BEGIN"[i] as int
  {
  }

  const FRESH := Peer(Cleanup, 0, 0, [])

  predicate IsLetter(b: Byte) {
    b in PASSWORD || b in RESPONSE
  }

  /** The bytes a peer can send. */
  predicate InAlphabet(b: Byte) {
    b == JOIN_REQUEST || b == ACK || b == GET_RESPONSE || IsLetter(b)
  }

  ghost predicate AllInAlphabet(s: seq<Byte>) {
    forall i | 0 <= i < |s| :: InAlphabet(s[i])
  }

  /** What holds of a peer between calls of `uart_sync`. */
  predicate Sane(p: Peer) {
    && p.idx <= PASSWORD_SIZE && p.tries <= SYNC_TRIES
    && (p.state == Cleanup ==> p.idx == 0 && p.tries == 0)
    && (p.state == Connected ==> p.idx == PASSWORD_SIZE)
  }

  lemma AlphabetHasNoNul()
    ensures !InAlphabet(NUL)
  {
    assert forall i | 0 <= i < |PASSWORD| :: PASSWORD[i] != NUL;
    assert forall i | 0 <= i < |RESPONSE| :: RESPONSE[i] != NUL;
  }

  lemma LinkByteSane(idx: nat, b: Byte)
    requires idx <= PASSWORD_SIZE && InAlphabet(b)
    ensures var (state, i, out) := LinkByte(idx, b);
            && (state == Waiting || state == Linked) && i <= PASSWORD_SIZE
            && |out| <= 1 && AllInAlphabet(out)
  {
    AlphabetHasNoNul();
    if idx < PASSWORD_SIZE {
      assert PASSWORD[idx] in PASSWORD;
    }
  }

  lemma ConnectByteSane(idx: nat, b: Byte)
    requires idx <= PASSWORD_SIZE && InAlphabet(b)
    ensures var (state, i, out) := ConnectByte(idx, b);
            && (state == Linked || state == Connected)
            && i <= PASSWORD_SIZE && (state == Connected ==> i == PASSWORD_SIZE)
            && |out| <= 1 && AllInAlphabet(out)
  {
    AlphabetHasNoNul();
    if idx < PASSWORD_SIZE {
      assert RESPONSE[idx] in RESPONSE;
    }
    assert RESPONSE[0] in RESPONSE;
  }

  /** A stage keeps a peer sane, sends only bytes of the alphabet, and sends no more bytes than it reads. */
  ghost predicate Conserves(p: Peer, q: Peer, out: seq<Byte>) {
    && Sane(q) && AllInAlphabet(q.inbox) && AllInAlphabet(out)
    && |q.inbox| + |out| <= |p.inbox|
  }

  lemma WaitStageConserves(p: Peer)
    requires Sane(p) && AllInAlphabet(p.inbox)
    ensures var (q, out) := WaitStage(p); Conserves(p, q, out)
  {
    if p.state == Waiting && p.inbox != [] {
      LinkByteSane(p.idx, p.inbox[0]);
    }
  }

  lemma LinkStageConserves(p: Peer)
    requires Sane(p) && AllInAlphabet(p.inbox)
    ensures var (q, out) := LinkStage(p); Conserves(p, q, out)
  {
    if p.state == Linked && p.inbox != [] {
      ConnectByteSane(p.idx, p.inbox[0]);
    }
  }

  /** One `uart_sync`: sane again, and at most one byte sent per byte read, plus the join request of a cleanup. */
  lemma SyncConserves(p: Peer)
    requires Sane(p) && AllInAlphabet(p.inbox)
    ensures var (q, out) := Sync(p);
            && Sane(q) && AllInAlphabet(q.inbox) && AllInAlphabet(out)
            && |q.inbox| + |out| <= |p.inbox| + if p.state == Cleanup then 1 else 0
  {
    var (p1, out1) := CleanupStage(p);
    WaitStageConserves(p1);
    var (p2, out2) := WaitStage(p1);
    LinkStageConserves(p2);
    assert InAlphabet(JOIN_REQUEST);
  }

  // ----- Timeouts ----------

  /** Timeout discipline: idle polls only count, until one more than sixty in a row starts the peer over. */
  function IdlePolls(p: Peer, n: nat): (q: Peer)
    requires Sane(p) && p.inbox == [] && (p.state == Waiting || p.state == Linked)
    requires p.tries + n <= 61
    ensures q == if p.tries + n <= 60 then p.(tries := p.tries + n) else Peer(Cleanup, 0, 0, [])
  {
    if n == 0 then p else Sync(IdlePolls(p, n - 1)).0
  }

  /** A connected peer is never moved, and reads and sends nothing. */
  lemma ConnectedIsFinal(p: Peer)
    requires p.state == Connected && p.idx <= PASSWORD_SIZE
    ensures Sync(p) == (p, [])
  {
    var none: seq<Byte> := [];
    assert none + none + none == none;
  }

  /** The index leaves its bound exactly when a NUL is read after a complete word; it is acknowledged as a letter. */
  lemma NulBreaksTheBound(p: Peer)
    requires Sane(p)
    ensures Sync(p).0.idx > PASSWORD_SIZE
            <==> && (p.state == Waiting || p.state == Linked) && p.idx == PASSWORD_SIZE
                 && p.inbox != [] && p.inbox[0] == NUL
    ensures Sync(p).0.idx > PASSWORD_SIZE ==>
              (Sync(p).0, Sync(p).1) == (Peer(p.state, 6, 0, p.inbox[1..]), [ACK])
  {
    if p.inbox != [] && (p.state == Waiting || p.state == Linked) {
      SyncReads(p);
    }
  }
}
