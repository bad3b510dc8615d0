/**
  The square-token codec: a token is a file letter followed by a rank
  digit, "a1" being row 0, column 0.
 */
module Helper {

  /** The decimal text of a natural number, as Python's str writes it. */
  function NatText(n: nat): (s: string)
    ensures |s| >= 1
    ensures n < 10 ==> s == [('0' as int + n) as char]
    ensures n >= 10 ==> |s| >= 2
    decreases n
  {
    if n < 10 then [('0' as int + n) as char] else NatText(n / 10) + NatText(n % 10)
  }

  /** A token do_move accepts: exactly two characters, a letter a-h then a digit 1-8. */
  predicate IsSquareToken(s: string) {
    |s| == 2 && s[0] in "abcdefgh" && s[1] in "12345678"
  }

  /** decode_inpt: the letter gives the column by its offset from 'a', the
      digit gives the row as its value minus one. Unpacking demands exactly
      two characters, and the rank must be an ASCII digit; the other Unicode
      decimal digits Python's int() also accepts are not modelled. The
      decoded square is on the board exactly for the tokens do_move
      accepts, and an on-board result encodes back to the token. */
  function DecodeInpt(s: string): (rc: (int, int))
    requires |s| == 2 && '0' <= s[1] <= '9'
    ensures -1 <= rc.0 <= 8
    ensures IsSquareToken(s) <==> 0 <= rc.0 < 8 && 0 <= rc.1 < 8
    ensures 0 <= rc.0 < 8 && 0 <= rc.1 < 8 ==> EncodeInpt(rc.0, rc.1) == s
  {
    var row := (s[1] as int - '0' as int) - 1;
    var col := s[0] as int - 'a' as int;
    (row, col)
  }

  /** encode_inpt: the letter chr(ord('a') + col) followed by str(row + 1).
      Python's chr needs a code point; Dafny's char also excludes the
      surrogate range, hence the upper bound on the column. The result is
      a token do_move accepts exactly when the square is on the board, and
      it has two characters exactly while row + 1 is a single digit. */
  function EncodeInpt(row: int, col: int): (s: string)
    requires row >= -1
    requires -('a' as int) <= col < 0xD800 - 'a' as int
    ensures |s| >= 2
    ensures IsSquareToken(s) <==> 0 <= row < 8 && 0 <= col < 8
    ensures |s| == 2 <==> row < 9
  {
    [('a' as int + col) as char] + NatText(row + 1)
  }

  /** An on-board square encodes as a two-character token that do_move
      accepts and that decodes back to the square. */
  lemma EncodeOnBoard(row: int, col: int)
    requires 0 <= row < 8 && 0 <= col < 8
    ensures IsSquareToken(EncodeInpt(row, col))
    ensures DecodeInpt(EncodeInpt(row, col)) == (row, col)
  {
    var s := EncodeInpt(row, col);
    assert s == [('a' as int + col) as char, ('0' as int + row + 1) as char];
  }

  /** Round trip from tokens: every accepted token is the encoding of the
      square it decodes to. */
  lemma DecodeEncode(s: string)
    requires IsSquareToken(s)
    ensures 0 <= DecodeInpt(s).0 < 8 && 0 <= DecodeInpt(s).1 < 8
    ensures EncodeInpt(DecodeInpt(s).0, DecodeInpt(s).1) == s
  {
    var rc := DecodeInpt(s);
    assert EncodeInpt(rc.0, rc.1) == [s[0], s[1]];
  }

  /** Decoding is injective on accepted tokens. */
  lemma DecodeInjective(s: string, t: string)
    requires IsSquareToken(s) && IsSquareToken(t)
    requires DecodeInpt(s) == DecodeInpt(t)
    ensures s == t
  {
    DecodeEncode(s);
    DecodeEncode(t);
  }

  /** Distinct on-board squares are written as distinct tokens. */
  lemma EncodeInjective(r1: int, c1: int, r2: int, c2: int)
    requires 0 <= r1 < 8 && 0 <= c1 < 8 && 0 <= r2 < 8 && 0 <= c2 < 8
    requires EncodeInpt(r1, c1) == EncodeInpt(r2, c2)
    ensures r1 == r2 && c1 == c2
  {
    EncodeOnBoard(r1, c1);
    EncodeOnBoard(r2, c2);
  }

  /** "e2" decodes to row 1, column 4, and row 3, column 4 encodes as "e4". */
  lemma CodecExamples()
    ensures DecodeInpt("e2") == (1, 4)
    ensures EncodeInpt(3, 4) == "e4"
    ensures DecodeInpt("h8") == (7, 7)
  {
  }
}
