/** Streaming text without splitting a character: the UTF-8 truncation and the carry buffer.
    Lead and continuation bytes are those of section 3 of RFC 3629, patterns only. */
module Utf8Stream {

  type Bytes = seq<bv8>

  /** Length announced by a lead byte; 0 for a byte that cannot start a character. */
  function Need(c: bv8): nat {
    if c & 0x80 == 0x00 then 1
    else if c & 0xE0 == 0xC0 then 2
    else if c & 0xF0 == 0xE0 then 3
    else if c & 0xF8 == 0xF0 then 4
    else 0
  }

  predicate Continues(c: bv8) {
    c & 0xC0 == 0x80
  }

  /** The bit patterns as ranges of bytes. */
  lemma BytePatterns(c: bv8)
    ensures Need(c) == if c <= 0x7F then 1
                       else if 0xC0 <= c <= 0xDF then 2
                       else if 0xE0 <= c <= 0xEF then 3
                       else if 0xF0 <= c <= 0xF7 then 4
                       else 0
    ensures Continues(c) <==> 0x80 <= c <= 0xBF
  {
  }

  /** A complete character starts at i. */
  predicate CharAt(s: Bytes, i: nat) {
    && i < |s| && Need(s[i]) >= 1 && i + Need(s[i]) <= |s|
    && forall k :: i + 1 <= k < i + Need(s[i]) ==> Continues(s[k])
  }

  /** A sequence of complete characters. */
  predicate WellFormed(s: Bytes)
    decreases |s|
  {
    s == [] || (CharAt(s, 0) && WellFormed(s[Need(s[0])..]))
  }

  /** The scan of sanitize_utf8: where the last complete character it meets ends. */
  function LastGood(s: Bytes, i: nat, good: nat): (end: nat)
    requires good <= i <= |s|
    ensures good <= end <= |s|
    decreases |s| - i
  {
    if i == |s| then good
    else if Need(s[i]) == 0 then LastGood(s, i + 1, good)
    else if i + Need(s[i]) > |s| then good
    else if CharAt(s, i) then LastGood(s, i + Need(s[i]), i + Need(s[i]))
    else LastGood(s, i + 1, good)
  }

  /** sanitize_utf8. */
  method SanitizeUtf8(s: Bytes) returns (r: Bytes)
    ensures r == s[..LastGood(s, 0, 0)]
  {
    hide Need, Continues;
    var i, lastGood := 0, 0;
    while i < |s|
      invariant 0 <= lastGood <= i <= |s|
      invariant LastGood(s, 0, 0) == LastGood(s, i, lastGood)
      decreases |s| - i
    {
      var need := Need(s[i]);
      if need == 0 {
        i := i + 1;
        continue;
      }
      if i + need > |s| {
        assert LastGood(s, i, lastGood) == lastGood;
        return s[..lastGood];
      }
      var ok := true;
      for k := 1 to need
        invariant ok && forall j :: i + 1 <= j < i + k ==> Continues(s[j])
      {
        if !Continues(s[i + k]) {
          ok := false;
          break;
        }
      }
      if !ok {
        i := i + 1;
        continue;
      }
      i := i + need;
      lastGood := i;
    }
    if lastGood == |s| {
      return s;
    }
    return s[..lastGood];
  }

  // ---- prefixes of well-formed text ----

  /** The last character boundary of `w` at or before `k`, counting from the boundary i. */
  function Boundary(w: Bytes, k: nat, i: nat): (g: nat)
    requires i <= k <= |w|
    ensures i <= g <= k
    decreases k - i
  {
    if i < k && Need(w[i]) >= 1 && i + Need(w[i]) <= k then Boundary(w, k, i + Need(w[i])) else i
  }

  /** The first character of well-formed text, in terms of the enclosing bytes. */
  lemma FirstChar(w: Bytes, i: nat)
    requires i < |w| && WellFormed(w[i..])
    ensures 1 <= Need(w[i]) <= 4 && i + Need(w[i]) <= |w|
    ensures CharAt(w, i) && CharAt(w[i..], 0) && WellFormed(w[i + Need(w[i])..])
  {
    hide Continues;
    var n := Need(w[i]);
    assert CharAt(w[i..], 0) && w[i..][0] == w[i];
    assert w[i..][n..] == w[i + n..];
    forall j | i + 1 <= j < i + n ensures Continues(w[j]) {
      assert w[j] == w[i..][j - i];
    }
  }

  /** The scan of a prefix steps over a character that fits, and stops at one that does not. */
  lemma ScanStep(w: Bytes, k: nat, i: nat)
    requires i < k <= |w| && CharAt(w, i)
    ensures var n := Need(w[i]);
      LastGood(w[..k], i, i) == if i + n <= k then LastGood(w[..k], i + n, i + n) else i
  {
    hide Need, Continues;
    var s, n := w[..k], Need(w[i]);
    assert s[i] == w[i];
    if i + n <= k {
      forall j | i + 1 <= j < i + n ensures Continues(s[j]) {
        assert s[j] == w[j];
      }
      assert CharAt(s, i);
    }
  }

  /** A prefix of well-formed text is cut at its last boundary; what is left over is the
      beginning of one character. */
  lemma {:induction false} PrefixSplits(w: Bytes, k: nat, i: nat)
    requires i <= k <= |w| && WellFormed(w[i..])
    ensures
      var g := Boundary(w, k, i);
      && WellFormed(w[i..g]) && WellFormed(w[g..]) && k - g < 4
      && LastGood(w[..k], i, i) == g
    decreases k - i
  {
    hide Need, Continues, CharAt, LastGood, WellFormed;
    if i < k {
      FirstChar(w, i);
      ScanStep(w, k, i);
      var n := Need(w[i]);
      if i + n <= k {
        PrefixSplits(w, k, i + n);
        CharThenWellFormed(w, i, n, Boundary(w, k, i + n));
      } else {
        EmptyIsWellFormed(w, i);
      }
    } else {
      EmptyIsWellFormed(w, i);
      ScanEnds(w[..k], i);
    }
  }

  lemma EmptyIsWellFormed(w: Bytes, i: nat)
    requires i <= |w|
    ensures WellFormed(w[i..i])
  {
  }

  lemma ScanEnds(s: Bytes, i: nat)
    requires i == |s|
    ensures LastGood(s, i, i) == i
  {
  }

  lemma CharThenWellFormed(w: Bytes, i: nat, n: nat, g: nat)
    requires i < |w| && n == Need(w[i]) && CharAt(w[i..], 0) && i + n <= g <= |w| && WellFormed(w[i + n..g])
    ensures WellFormed(w[i..g])
  {
    hide Need, Continues;
    var s := w[i..g];
    assert s[0] == w[i] && s[n..] == w[i + n..g];
    forall j | 1 <= j < n ensures Continues(s[j]) {
      assert s[j] == w[i..][j];
    }
  }

  // ---- the stream ----

  function Flat(pieces: seq<Bytes>): Bytes {
    if pieces == [] then [] else pieces[0] + Flat(pieces[1..])
  }

  lemma {:induction false} FlatConcat(a: seq<Bytes>, b: seq<Bytes>)
    ensures Flat(a + b) == Flat(a) + Flat(b)
  {
    if a == [] {
      assert a + b == b;
    } else {
      assert (a + b)[1..] == a[1..] + b;
      FlatConcat(a[1..], b);
    }
  }

  lemma FlatSnoc(a: seq<Bytes>, last: Bytes)
    ensures Flat(a + [last]) == Flat(a) + last
  {
    FlatConcat(a, [last]);
    assert Flat([last]) == last + Flat([]);
  }

  class ChunkStream {
    var utf8Carry: Bytes
    /** The content deltas written so far; empty ones are not written. */
    var deltas: seq<Bytes>

    constructor ()
      ensures utf8Carry == [] && deltas == []
    {
      utf8Carry, deltas := [], [];
    }

    /** on_token, for any bytes: nothing is lost, added or reordered. */
    method OnToken(piece: Bytes)
      modifies this
      ensures Flat(deltas) + utf8Carry == Flat(old(deltas)) + old(utf8Carry) + piece
      ensures var all := old(utf8Carry) + piece;
        utf8Carry == all[LastGood(all, 0, 0)..]
        && deltas == if LastGood(all, 0, 0) == 0 then old(deltas) else old(deltas) + [all[..LastGood(all, 0, 0)]]
    {
      hide LastGood, Flat;
      utf8Carry := utf8Carry + piece;
      var emit := SanitizeUtf8(utf8Carry);
      assert utf8Carry == emit + utf8Carry[|emit|..];
      utf8Carry := utf8Carry[|emit|..];
      if emit != [] {
        FlatSnoc(deltas, emit);
        deltas := deltas + [emit];
      }
    }

    /** One piece of a text: `rest` is what the later pieces hold. */
    method StreamPiece(piece: Bytes, ghost rest: Bytes)
      requires |utf8Carry| < 4 && WellFormed(utf8Carry + piece + rest)
      requires forall d :: 0 <= d < |deltas| ==> deltas[d] != [] && WellFormed(deltas[d])
      modifies this
      ensures |utf8Carry| < 4 && WellFormed(utf8Carry + rest)
      ensures Flat(deltas) + utf8Carry == Flat(old(deltas)) + old(utf8Carry) + piece
      ensures forall d :: 0 <= d < |deltas| ==> deltas[d] != [] && WellFormed(deltas[d])
      ensures rest == [] ==> utf8Carry == []
    {
      hide Need, Continues, LastGood, CharAt, WellFormed, Flat;
      ghost var all := utf8Carry + piece;
      CutOnce(all, rest);
      OnToken(piece);
    }

    /** However a beginning of a well-formed text is cut into pieces, every delta is whole characters
        and less than a character is held back; `rest` is what is missing of the text, so without it
        everything has been written at the end. */
    method Stream(pieces: seq<Bytes>, ghost rest: Bytes)
      requires utf8Carry == [] && deltas == [] && WellFormed(Flat(pieces) + rest)
      modifies this
      ensures Flat(deltas) + utf8Carry == Flat(pieces)
      ensures forall d :: 0 <= d < |deltas| ==> deltas[d] != [] && WellFormed(deltas[d])
      ensures |utf8Carry| < 4 && WellFormed(utf8Carry + rest)
      ensures rest == [] ==> utf8Carry == [] && Flat(deltas) == Flat(pieces)
    {
      hide Need, Continues, LastGood, CharAt, WellFormed;
      assert pieces[0..] == pieces && pieces[..0] == [];
      assert utf8Carry + (Flat(pieces[0..]) + rest) == Flat(pieces) + rest;
      for i := 0 to |pieces|
        invariant WellFormed(utf8Carry + (Flat(pieces[i..]) + rest)) && |utf8Carry| < 4
        invariant Flat(deltas) + utf8Carry == Flat(pieces[..i])
        invariant forall d :: 0 <= d < |deltas| ==> deltas[d] != [] && WellFormed(deltas[d])
        invariant i == |pieces| && rest == [] ==> utf8Carry == []
      {
        FlatStep(pieces, i);
        ghost var later := Flat(pieces[i + 1..]) + rest;
        assert utf8Carry + (Flat(pieces[i..]) + rest) == utf8Carry + pieces[i] + later;
        StreamPiece(pieces[i], later);
      }
      assert pieces[..|pieces|] == pieces && Flat(pieces[|pieces|..]) + rest == rest;
    }
  }

  /** Where well-formed text, known so far as `all`, is cut. */
  lemma CutOnce(all: Bytes, rest: Bytes)
    requires WellFormed(all + rest)
    ensures var g := LastGood(all, 0, 0);
      && WellFormed(all[..g]) && WellFormed(all[g..] + rest) && |all| - g < 4
      && (rest == [] ==> g == |all|)
  {
    hide Need, Continues, LastGood, CharAt, WellFormed, Boundary;
    var w := all + rest;
    assert w[0..] == w && w[..|all|] == all;
    PrefixSplits(w, |all|, 0);
    var g := Boundary(w, |all|, 0);
    assert w[0..g] == all[..g] && w[g..] == all[g..] + rest;
    if rest == [] {
      assert w == all;
      BoundaryOfAll(w, 0);
    }
  }

  lemma FlatStep(pieces: seq<Bytes>, i: nat)
    requires i < |pieces|
    ensures Flat(pieces[i..]) == pieces[i] + Flat(pieces[i + 1..])
    ensures Flat(pieces[..i + 1]) == Flat(pieces[..i]) + pieces[i]
  {
    assert pieces[i..][1..] == pieces[i + 1..];
    assert pieces[..i + 1] == pieces[..i] + [pieces[i]];
    FlatConcat(pieces[..i], [pieces[i]]);
    assert [pieces[i]][1..] == [];
  }

  lemma {:induction false} BoundaryOfAll(w: Bytes, i: nat)
    requires i <= |w| && WellFormed(w[i..])
    ensures Boundary(w, |w|, i) == |w|
    decreases |w| - i
  {
    hide Need, Continues;
    if i < |w| {
      assert CharAt(w[i..], 0) && w[i..][0] == w[i];
      assert w[i..][Need(w[i])..] == w[i + Need(w[i])..];
      BoundaryOfAll(w, i + Need(w[i]));
    }
  }

  // ---- arbitrary bytes ----

  /** The longest well-formed prefix, found greedily from the boundary i. */
  function WellPrefix(s: Bytes, i: nat): (g: nat)
    requires i <= |s|
    ensures i <= g <= |s|
    decreases |s| - i
  {
    if i < |s| && CharAt(s, i) then WellPrefix(s, i + Need(s[i])) else i
  }

  lemma {:induction false} WellPrefixIsWellFormed(s: Bytes, i: nat)
    requires i <= |s|
    ensures WellFormed(s[i..WellPrefix(s, i)]) && WellPrefix(s, i) <= LastGood(s, i, i)
    decreases |s| - i
  {
    hide Need, Continues;
    if i < |s| && CharAt(s, i) {
      var n, g := Need(s[i]), WellPrefix(s, i);
      WellPrefixIsWellFormed(s, i + n);
      forall k | 1 <= k < n ensures Continues(s[i..][k]) {
        assert s[i..][k] == s[i + k];
      }
      assert s[i..][0] == s[i] && CharAt(s[i..], 0);
      CharThenWellFormed(s, i, n, g);
    }
  }

  lemma {:induction false} WellPrefixLongest(s: Bytes, i: nat, e: nat)
    requires i <= e <= |s| && WellFormed(s[i..e])
    ensures e <= WellPrefix(s, i)
    decreases |s| - i
  {
    hide Need, Continues;
    if i < e {
      var t, n := s[i..e], Need(s[i]);
      assert t[0] == s[i] && CharAt(t, 0);
      forall k | i + 1 <= k < i + n ensures Continues(s[k]) {
        assert s[k] == t[k - i];
      }
      assert t[n..] == s[i + n..e];
      WellPrefixLongest(s, i + n, e);
    }
  }

  /** A lead byte that announces more bytes than are left. */
  predicate Truncated(s: Bytes, j: nat) {
    j < |s| && Need(s[j]) >= 1 && j + Need(s[j]) > |s|
  }

  /** From g on, no complete character comes before a truncated lead byte. */
  ghost predicate NothingKeptFrom(s: Bytes, g: nat) {
    forall i: nat :: g <= i && CharAt(s, i) ==> exists j: nat :: g <= j < i && Truncated(s, j)
  }

  /** The scan runs through the longest well-formed prefix. */
  lemma {:induction false} ScanToPrefix(s: Bytes, i: nat)
    requires i <= |s|
    ensures var g := WellPrefix(s, i); LastGood(s, i, i) == LastGood(s, g, g)
    ensures !CharAt(s, WellPrefix(s, i))
    decreases |s| - i
  {
    hide Need, Continues;
    if i < |s| && CharAt(s, i) {
      ScanToPrefix(s, i + Need(s[i]));
    }
  }

  /** From a bad byte on, the scan keeps nothing exactly when it meets a truncated lead byte, or the
      end, before a complete character. */
  lemma {:induction false} ScanKeepsNothingIff(s: Bytes, g: nat, i: nat)
    requires g <= i <= |s| && forall k: nat :: g <= k < i ==> !CharAt(s, k) && !Truncated(s, k)
    ensures LastGood(s, i, g) == g <==> NothingKeptFrom(s, g)
    decreases |s| - i
  {
    hide Need, Continues;
    if i == |s| {
      assert LastGood(s, i, g) == g;
      assert forall k: nat :: g <= k ==> !CharAt(s, k);
    } else if Truncated(s, i) {
      assert LastGood(s, i, g) == g;
    } else if CharAt(s, i) {
      assert LastGood(s, i, g) >= i + Need(s[i]) > g;
      assert !exists j: nat :: g <= j < i && Truncated(s, j);
    } else {
      ScanKeepsNothingIff(s, g, i + 1);
    }
  }

  /** What is kept of arbitrary bytes is well-formed exactly when, after the first bad byte, no
      complete character comes before a truncated lead byte: a stray byte in front of a complete
      character is kept. */
  lemma SanitizedIsWellFormedIff(s: Bytes)
    ensures WellFormed(s[..LastGood(s, 0, 0)]) <==> NothingKeptFrom(s, WellPrefix(s, 0))
  {
    hide Need, Continues, LastGood, CharAt, Truncated, NothingKeptFrom;
    var e, g := LastGood(s, 0, 0), WellPrefix(s, 0);
    WellPrefixIsWellFormed(s, 0);
    ScanToPrefix(s, 0);
    ScanKeepsNothingIff(s, g, g);
    assert s[0..e] == s[..e];
    if WellFormed(s[..e]) {
      WellPrefixLongest(s, 0, e);
    }
  }

  lemma StrayByteIsKept()
    ensures var s: Bytes := [0x80, 0x41]; s[..LastGood(s, 0, 0)] == s && !WellFormed(s)
  {
    var s: Bytes := [0x80, 0x41];
    assert Need(s[0]) == 0 && Need(s[1]) == 1;
    assert CharAt(s, 1);
    assert LastGood(s, 2, 2) == 2;
    assert LastGood(s, 1, 0) == 2;
  }
}
