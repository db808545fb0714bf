/**
 * The tab tokenizer of utils.cpp: both overloads of `split`, which read the
 * line piece by piece with `std::getline(stream, token, delimiter)`.
 *
 * `getline` never yields a piece for an empty remainder, so an empty line has
 * no pieces and a trailing delimiter does not produce a trailing empty piece,
 * while two delimiters in a row do produce an empty piece between them.
 */
module Utils {

  /** The field delimiter of the input records. */
  const Tab: char := '\t'

  /** Length of the first piece of `s`: everything before the first `delim`. */
  function FieldEnd(s: string, delim: char): (k: nat)
    ensures k <= |s|
    ensures delim !in s[..k]
    ensures k < |s| ==> s[k] == delim
  {
    if s == [] || s[0] == delim then 0
    else
      var k := 1 + FieldEnd(s[1..], delim);
      assert s[..k] == [s[0]] + s[1..][..k - 1];
      k
  }

  /** The pieces successive `getline` calls extract from `s`. */
  function Tokens(s: string, delim: char): (pieces: seq<string>)
    ensures pieces == [] <==> s == []
    ensures forall i :: 0 <= i < |pieces| ==> delim !in pieces[i]
    decreases |s|
  {
    if s == [] then []
    else
      var k := FieldEnd(s, delim);
      if k == |s| then [s] else [s[..k]] + Tokens(s[k + 1..], delim)
  }

  /** The pieces written back with `delim` between each two of them. */
  function Join(pieces: seq<string>, delim: char): string
  {
    if pieces == [] then []
    else if |pieces| == 1 then pieces[0]
    else pieces[0] + [delim] + Join(pieces[1..], delim)
  }

  /** `k` is the first-piece length whenever `s[..k]` is free of `delim` and is followed by `delim` or the end. */
  lemma {:induction false} FieldEndUnique(s: string, delim: char, k: nat)
    requires k <= |s| && delim !in s[..k]
    requires k == |s| || s[k] == delim
    ensures FieldEnd(s, delim) == k
  {
    if k > 0 {
      assert s[0] in s[..k];
      assert s[1..][..k - 1] == s[1..k];
      assert forall c :: c in s[1..k] ==> c in s[..k];
      FieldEndUnique(s[1..], delim, k - 1);
    }
  }

  /** One `getline` call starting at `pos`: the piece runs up to `end`. */
  lemma TokensAt(s: string, delim: char, pos: nat, end: nat)
    requires pos < |s| && pos <= end <= |s|
    requires delim !in s[pos..end]
    requires end == |s| || s[end] == delim
    ensures end == |s| ==> Tokens(s[pos..], delim) == [s[pos..end]]
    ensures end < |s| ==> Tokens(s[pos..], delim) == [s[pos..end]] + Tokens(s[end + 1..], delim)
  {
    var t := s[pos..];
    assert t[..end - pos] == s[pos..end];
    FieldEndUnique(t, delim, end - pos);
    if end < |s| {
      assert t[end - pos + 1..] == s[end + 1..];
    } else {
      assert t == s[pos..end];
    }
  }

  /** Splitting a line that does not end in the delimiter and joining the pieces gives the line back. */
  lemma {:induction false} JoinTokens(s: string, delim: char)
    requires s == [] || s[|s| - 1] != delim
    ensures Join(Tokens(s, delim), delim) == s
    decreases |s|
  {
    if s != [] {
      var k := FieldEnd(s, delim);
      if k < |s| {
        var rest := s[k + 1..];
        assert rest != [] && rest[|rest| - 1] == s[|s| - 1];
        JoinTokens(rest, delim);
        SplitAround(s, k);
        TokensCons(s[..k], rest, delim);
        JoinCons(s[..k], Tokens(rest, delim), delim);
      }
    }
  }

  /** A string is what lies before position `k`, the character at `k`, and what lies after it. */
  lemma SplitAround(s: string, k: nat)
    requires k < |s|
    ensures s == s[..k] + [s[k]] + s[k + 1..]
  {
  }

  /** Joining a piece in front of further pieces puts one delimiter between them. */
  lemma JoinCons(piece: string, pieces: seq<string>, delim: char)
    requires pieces != []
    ensures Join([piece] + pieces, delim) == piece + [delim] + Join(pieces, delim)
  {
    assert ([piece] + pieces)[1..] == pieces;
  }

  /** Joining delimiter-free pieces whose last one is not empty and splitting again gives the pieces back. */
  lemma {:induction false} TokensJoin(pieces: seq<string>, delim: char)
    requires pieces != [] && pieces[|pieces| - 1] != []
    requires forall i :: 0 <= i < |pieces| ==> delim !in pieces[i]
    ensures Tokens(Join(pieces, delim), delim) == pieces
  {
    var s := Join(pieces, delim);
    var p := pieces[0];
    if |pieces| == 1 {
      FieldEndUnique(s, delim, |s|);
      assert s[..|s|] == s;
    } else {
      var rest := pieces[1..];
      TokensJoin(rest, delim);
      assert [p] + rest == pieces;
      JoinCons(p, rest, delim);
      TokensCons(p, Join(rest, delim), delim);
    }
  }

  /** A delimiter-free piece followed by the delimiter is the first piece, and the rest is read on from there. */
  lemma TokensCons(piece: string, rest: string, delim: char)
    requires delim !in piece
    ensures Tokens(piece + [delim] + rest, delim) == [piece] + Tokens(rest, delim)
  {
    var s := piece + [delim] + rest;
    assert s[..|piece|] == piece;
    FieldEndUnique(s, delim, |piece|);
    assert s[|piece| + 1..] == rest;
  }

  /**
   * The contents of a fixed set of slots after `pieces` were written into it
   * from the front: slots beyond the last piece keep what they held.
   */
  function Fill(slots: seq<string>, pieces: seq<string>): (r: seq<string>)
    ensures |r| == |slots|
    ensures forall i :: 0 <= i < |slots| ==> r[i] == if i < |pieces| then pieces[i] else slots[i]
  {
    if |pieces| >= |slots| then pieces[..|slots|] else pieces + slots[|pieces|..]
  }

  /**
   * One `getline` call at `pos` whose piece runs up to `end`: the pieces read
   * so far, that piece, and the pieces after the delimiter still make up
   * `whole`, the pieces of the entire line.
   */
  lemma TokensStep(s: string, delim: char, pos: nat, end: nat, acc: seq<string>, whole: seq<string>)
    requires pos < |s| && pos <= end <= |s|
    requires delim !in s[pos..end]
    requires end == |s| || s[end] == delim
    requires acc + Tokens(s[pos..], delim) == whole
    ensures (acc + [s[pos..end]]) + Tokens(s[if end < |s| then end + 1 else |s|..], delim) == whole
  {
    TokensAt(s, delim, pos, end);
    var piece := s[pos..end];
    var after := Tokens(s[if end < |s| then end + 1 else |s|..], delim);
    assert Tokens(s[pos..], delim) == [piece] + after by {
      if end == |s| {
        assert s[|s|..] == [];
      }
    }
    Associate(acc, [piece], after);
  }

  /** Concatenation of sequences is associative. */
  lemma Associate<T>(a: seq<T>, b: seq<T>, c: seq<T>)
    ensures (a + b) + c == a + (b + c)
  {
  }

  /** utils.cpp:18: one `getline` call from `pos` scans up to the next delimiter or the end of the line. */
  method NextField(s: string, delim: char, pos: nat) returns (end: nat)
    requires pos <= |s|
    ensures pos <= end <= |s|
    ensures delim !in s[pos..end]
    ensures end == |s| || s[end] == delim
  {
    end := pos;
    while end < |s| && s[end] != delim
      invariant pos <= end <= |s|
      invariant forall q :: pos <= q < end ==> s[q] != delim
    {
      end := end + 1;
    }
  }

  /** Writing one more piece into a free slot changes only that slot. */
  lemma FillSnoc(slots: seq<string>, pieces: seq<string>, piece: string)
    requires |pieces| < |slots|
    ensures Fill(slots, pieces + [piece]) == Fill(slots, pieces)[|pieces| := piece]
  {
  }

  /** Once every slot is written, further pieces change nothing. */
  lemma FillSaturated(slots: seq<string>, pieces: seq<string>, rest: seq<string>)
    requires |pieces| == |slots|
    ensures Fill(slots, pieces + rest) == Fill(slots, pieces)
  {
    assert (pieces + rest)[..|slots|] == pieces;
  }

  /** utils.cpp:11-23: all the pieces of `s`, in order. */
  method Split(s: string, delim: char) returns (tokens: seq<string>)
    ensures tokens == Tokens(s, delim)
  {
    tokens := [];
    var pos := 0;
    while pos < |s|
      invariant pos <= |s|
      invariant tokens + Tokens(s[pos..], delim) == Tokens(s, delim)
      decreases |s| - pos
    {
      var end := NextField(s, delim, pos);
      TokensStep(s, delim, pos, end, tokens, Tokens(s, delim));
      tokens := tokens + [s[pos..end]];
      pos := if end < |s| then end + 1 else |s|;
    }
    assert s[pos..] == [];
    assert tokens + [] == tokens;
  }

  /**
   * utils.cpp:25-41: writes the pieces of `s` into the caller's slots one by
   * one and reports `false` (the thrown "Too many tokens") when a piece finds
   * no free slot; by then every slot has been overwritten.
   */
  method SplitInto(slots: array<string>, s: string, delim: char) returns (fits: bool)
    modifies slots
    ensures fits <==> |Tokens(s, delim)| <= slots.Length
    ensures slots[..] == Fill(old(slots[..]), Tokens(s, delim))
  {
    ghost var before := slots[..];
    ghost var done: seq<string> := [];
    var i := 0;
    var size := slots.Length;
    var pos := 0;
    while pos < |s|
      invariant pos <= |s|
      invariant i == |done| <= size
      invariant done + Tokens(s[pos..], delim) == Tokens(s, delim)
      invariant slots[..] == Fill(before, done)
      decreases |s| - pos
    {
      var end := NextField(s, delim, pos);
      TokensStep(s, delim, pos, end, done, Tokens(s, delim));
      if i >= size {
        FillSaturated(before, done, Tokens(s[pos..], delim));
        return false;
      }
      var piece := s[pos..end];
      FillSnoc(before, done, piece);
      slots[i] := piece;
      done := done + [piece];
      i := i + 1;
      pos := if end < |s| then end + 1 else |s|;
    }
    assert s[pos..] == [];
    assert done == Tokens(s, delim);
    return true;
  }
}
