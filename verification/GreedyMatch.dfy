/** What the letter index means: greedy matching finds the longest possible prefix of the word that is read. */
module GreedyMatch {
  import opened Bytes
  import opened Handshake

  /** f places the letters of w, in order, at positions of s. */
  predicate Places(f: seq<nat>, w: seq<Byte>, s: seq<Byte>) {
    && |f| == |w|
    && (forall i | 0 <= i < |f| :: f[i] < |s| && s[f[i]] == w[i])
    && (forall i, j | 0 <= i < j < |f| :: f[i] < f[j])
  }

  ghost predicate IsSubsequence(w: seq<Byte>, s: seq<Byte>) {
    exists f: seq<nat> :: Places(f, w, s)
  }

  /** The two words: the password, read by a waiting peer, and the response, read by a linked one. */
  datatype Word = Password | Response {
    function Text(): (w: seq<Byte>)
      ensures |w| == 5
    {
      if Password? then PASSWORD else RESPONSE
    }

    /** The byte that starts the word over, the index it goes back to, and the byte it is answered with. */
    function Restart(): (b: Byte) {
      if Password? then JOIN_REQUEST else GET_RESPONSE
    }

    function Base(): (from: nat) {
      if Password? then 0 else 1
    }

    function Reply(): (b: Byte) {
      if Password? then ACK else RESPONSE[0]
    }
  }

  /** What a peer that reads the word does with a byte: whether that completes it, the index, and the bytes sent. */
  function Read(w: Word, idx: nat, b: Byte): (r: (bool, nat, seq<Byte>))
    requires idx <= 5
  {
    match w
    case Password => var (state, i, out) := LinkByte(idx, b); (state == Linked, if state == Linked then 5 else i, out)
    case Response => var (state, i, out) := ConnectByte(idx, b); (state == Connected, i, out)
  }

  /** Neither an acknowledgement nor, after a complete word, the NUL that ends it. */
  predicate Plain(i: nat, s: seq<Byte>) {
    (forall n | 0 <= n < |s| :: s[n] != ACK) && (i == 5 ==> forall n | 0 <= n < |s| :: s[n] != NUL)
  }

  lemma ReadPlain(w: Word, idx: nat, b: Byte)
    requires idx <= 5 && b != ACK && (idx == 5 ==> b != NUL)
    ensures Read(w, idx, b) ==
            if b == w.Restart() then (false, w.Base(), [w.Reply()])
            else if idx < 5 && b == w.Text()[idx] then (idx + 1 == 5, idx + 1, [ACK])
            else (false, idx, [])
  {
  }

  /** A peer that starts reading the word at index i, fed byte by byte until that completes it. */
  function Feed(w: Word, i: nat, s: seq<Byte>): (r: (bool, nat, seq<Byte>))
    requires i <= 5 && Plain(i, s)
    ensures r.1 <= 5 && (r.1 == 5 && !r.0 ==> i == 5)
  {
    if s == [] then (false, i, [])
    else
      var (done, idx, out) := Feed(w, i, s[..|s| - 1]);
      if done then (done, idx, out)
      else
        ReadPlain(w, idx, s[|s| - 1]);
        var (done', idx', out') := Read(w, idx, s[|s| - 1]);
        (done', idx', out + out')
  }

  /** The bytes since the last one that started the word over. */
  function Since(w: Word, s: seq<Byte>): (bytes: seq<Byte>) {
    if s == [] || s[|s| - 1] == w.Restart() then [] else Since(w, s[..|s| - 1]) + [s[|s| - 1]]
  }

  /** The index from which these have been read. */
  function From(w: Word, i: nat, s: seq<Byte>): (from: nat) {
    if s == [] then i else if s[|s| - 1] == w.Restart() then w.Base() else From(w, i, s[..|s| - 1])
  }

  lemma PlacesGrows(f: seq<nat>, w: seq<Byte>, s: seq<Byte>, b: Byte)
    ensures Places(f, w, s) ==> Places(f, w, s + [b]) && Places(f + [|s|], w + [b], s + [b])
  {
  }

  /** One more byte lets the matched prefix grow by at most itself, and only when it is the next letter. */
  lemma SubsequenceSnoc(w: seq<Byte>, c: Byte, s: seq<Byte>, b: Byte)
    requires !IsSubsequence(w + [c], s)
    ensures IsSubsequence(w + [c], s + [b]) ==> c == b && IsSubsequence(w, s)
  {
    if f: seq<nat> :| Places(f, w + [c], s + [b]) {
      var n := |w|;
      if f[n] < |s| {
        assert Places(f, w + [c], s);
      } else {
        assert Places(f[..n], w, s);
        assert (s + [b])[f[n]] == (w + [c])[n];
      }
    }
  }

  /** Between its indices from and k the word is a subsequence of s, and no further. */
  ghost predicate Longest(w: Word, from: nat, k: nat, s: seq<Byte>) {
    && from <= k <= 5
    && IsSubsequence(w.Text()[from..k], s)
    && (k < 5 ==> !IsSubsequence(w.Text()[from..k + 1], s))
  }

  lemma NothingInEmpty(w: seq<Byte>)
    requires w != []
    ensures !IsSubsequence(w, [])
  {
    forall f: seq<nat>
      ensures !Places(f, w, [])
    {
      if f != [] {
        assert f[0] >= 0;
      }
    }
  }

  lemma LongestOfNothing(w: Word, from: nat)
    requires from <= 5
    ensures Longest(w, from, from, [])
  {
    assert Places([], w.Text()[from..from], []);
    if from < 5 {
      NothingInEmpty(w.Text()[from..from + 1]);
    }
  }

  lemma OneLetterMore(w: Word, from: nat, k: nat)
    requires from <= k < 5
    ensures w.Text()[from..k + 1] == w.Text()[from..k] + [w.Text()[k]]
  {
  }

  /** Greedy is maximal: advancing exactly on the next letter keeps the index at the longest prefix. */
  lemma LongestSnoc(w: Word, from: nat, k: nat, s: seq<Byte>, b: Byte)
    requires Longest(w, from, k, s)
    ensures Longest(w, from, if k < 5 && b == w.Text()[k] then k + 1 else k, s + [b])
  {
    var v := w.Text()[from..k];
    var f: seq<nat> :| Places(f, v, s);
    PlacesGrows(f, v, s, b);
    if k < 5 {
      OneLetterMore(w, from, k);
      SubsequenceSnoc(v, w.Text()[k], s, b);
      if b == w.Text()[k] && k + 1 < 5 {
        OneLetterMore(w, from, k + 1);
        PrefixIsSubsequence(v + [b], [w.Text()[k + 1]], s);
        SubsequenceSnoc(v + [b], w.Text()[k + 1], s, b);
      }
    }
  }

  lemma PrefixIsSubsequence(w: seq<Byte>, v: seq<Byte>, s: seq<Byte>)
    ensures IsSubsequence(w + v, s) ==> IsSubsequence(w, s)
  {
    if f: seq<nat> :| Places(f, w + v, s) {
      forall i | 0 <= i < |w|
        ensures s[f[i]] == w[i]
      {
        assert (w + v)[i] == w[i];
      }
      assert Places(f[..|w|], w, s);
    }
  }

  /** By byte n what was left of the word has been seen, in order, since it was last started. */
  ghost predicate SeenBy(w: Word, i: nat, s: seq<Byte>, n: nat)
    requires n <= |s|
  {
    var from := From(w, i, s[..n]);
    from < 5 && IsSubsequence(w.Text()[from..], Since(w, s[..n]))
  }

  ghost predicate WordSeen(w: Word, i: nat, s: seq<Byte>) {
    exists n: nat :: n <= |s| && SeenBy(w, i, s, n)
  }

  lemma SeenStays(w: Word, i: nat, s: seq<Byte>)
    requires s != []
    ensures WordSeen(w, i, s[..|s| - 1]) ==> WordSeen(w, i, s)
    ensures WordSeen(w, i, s) ==> WordSeen(w, i, s[..|s| - 1]) || SeenBy(w, i, s, |s|)
  {
    var front := s[..|s| - 1];
    forall n: nat | n <= |front|
      ensures s[..n] == front[..n] && SeenBy(w, i, s, n) == SeenBy(w, i, front, n)
    {
      assert s[..n] == front[..n];
    }
  }

  /** The index k is the longest match of the bytes s, and not at the end of a word that was ever begun. */
  ghost predicate Matches(w: Word, i: nat, s: seq<Byte>, k: nat) {
    Longest(w, From(w, i, s), k, Since(w, s)) && (k < 5 || From(w, i, s) == 5)
  }

  /** Then the word is not seen by the last byte. */
  lemma NotSeenYet(w: Word, i: nat, s: seq<Byte>, k: nat)
    requires Matches(w, i, s, k)
    ensures !SeenBy(w, i, s, |s|)
  {
    var from := From(w, i, s);
    assert s[..|s|] == s;
    if k < 5 {
      assert w.Text()[from..] == w.Text()[from..k + 1] + w.Text()[k + 1..];
      PrefixIsSubsequence(w.Text()[from..k + 1], w.Text()[k + 1..], Since(w, s));
    }
  }

  /**
   * Greedy matching is maximal, from whatever index it starts: until the word is complete, the index is the end of the
   * longest part of the word that is a subsequence of the bytes since it was last started; it is complete exactly when
   * the rest of the word has been seen.
   */
  lemma {:induction false} GreedyIsMaximal(w: Word, i: nat, s: seq<Byte>)
    requires i <= 5 && Plain(i, s)
    ensures Feed(w, i, s).0 <==> WordSeen(w, i, s)
    ensures !Feed(w, i, s).0 ==> Matches(w, i, s, Feed(w, i, s).1)
  {
    if s == [] {
      LongestOfNothing(w, i);
      NotSeenYet(w, i, s, i);
    } else {
      var front, b := s[..|s| - 1], s[|s| - 1];
      GreedyIsMaximal(w, i, front);
      SeenStays(w, i, s);
      var (done, k, _) := Feed(w, i, front);
      if !done {
        GreedyStep(w, i, s, k);
      }
    }
  }

  lemma GreedyStep(w: Word, i: nat, s: seq<Byte>, k: nat)
    requires i <= 5 && Plain(i, s) && s != []
    requires var front := s[..|s| - 1];
             !Feed(w, i, front).0 && Feed(w, i, front).1 == k && Matches(w, i, front, k)
    ensures Feed(w, i, s).0 <==> SeenBy(w, i, s, |s|)
    ensures !Feed(w, i, s).0 ==> Matches(w, i, s, Feed(w, i, s).1)
  {
    var front, b := s[..|s| - 1], s[|s| - 1];
    ReadPlain(w, k, b);
    var k' := Feed(w, i, s).1;
    if b == w.Restart() {
      LongestOfNothing(w, w.Base());
      NotSeenYet(w, i, s, k');
    } else {
      LongestSnoc(w, From(w, i, front), k, Since(w, front), b);
      if Feed(w, i, s).0 {
        WordComplete(w, i, s);
      } else {
        NotSeenYet(w, i, s, k');
      }
    }
  }

  lemma WordComplete(w: Word, i: nat, s: seq<Byte>)
    requires From(w, i, s) < 5 && Longest(w, From(w, i, s), 5, Since(w, s))
    ensures SeenBy(w, i, s, |s|)
  {
    assert s[..|s|] == s && w.Text()[From(w, i, s)..5] == w.Text()[From(w, i, s)..];
  }

  /**
   * What is sent: the reply to a byte that starts the word over, wherever it is read; an acknowledgement for each
   * advance of the index; and nothing otherwise, nor once the word is complete.
   */
  lemma GreedyAnswers(w: Word, i: nat, s: seq<Byte>)
    requires i <= 5 && Plain(i, s) && s != []
    ensures var (done, k, out), (_, k', out') := Feed(w, i, s[..|s| - 1]), Feed(w, i, s);
            out' == out + if done then [] else if s[|s| - 1] == w.Restart() then [w.Reply()]
                          else if k' == k + 1 then ['O' as int] else []
  {
    var (done, k, out) := Feed(w, i, s[..|s| - 1]);
    if !done {
      ReadPlain(w, k, s[|s| - 1]);
    } else {
      assert out + [] == out;
    }
  }
}
