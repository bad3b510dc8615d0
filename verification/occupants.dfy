/** Failure-carrying results for the operations that raise in the original. */
module Results {

  datatype Option<+T> = None | Some(value: T)

  datatype Result<+T, +E> = Ok(value: T) | Err(error: E)
}

/**
  Sides, piece kinds and square occupants, together with the
  one-character text encoding of an occupant: '.' is an empty square,
  the letters p n b r q k are side-1 pieces and their upper-case forms
  are side-2 pieces.
 */
module Occupants {

  import opened Results

  datatype Side = One | Two

  function Opponent(s: Side): (o: Side)
    ensures o != s
  {
    if s == One then Two else One
  }

  /** The turn character of the text encoding: '1' or '2'. */
  function SideChar(s: Side): (c: char)
    ensures c == '1' || c == '2'
  {
    if s == One then '1' else '2'
  }

  /** Inverse of SideChar; None for any other character. */
  function ParseSide(c: char): (r: Option<Side>)
    ensures r.Some? <==> (c == '1' || c == '2')
    ensures r.Some? ==> SideChar(r.value) == c
  {
    if c == '1' then Some(One)
    else if c == '2' then Some(Two)
    else None
  }

  datatype Kind = Pawn | Knight | Bishop | Rook | Queen | King

  datatype Occupant = Empty | Piece(side: Side, kind: Kind)

  predicate Owned(o: Occupant, s: Side) {
    o.Piece? && o.side == s
  }

  predicate IsKing(o: Occupant) {
    o.Piece? && o.kind == King
  }

  /** The lower-case letter naming a kind, as the side-1 pieces are written. */
  function KindLetter(k: Kind): char {
    match k
    case Pawn => 'p'
    case Knight => 'n'
    case Bishop => 'b'
    case Rook => 'r'
    case Queen => 'q'
    case King => 'k'
  }

  function Upper(c: char): char {
    if 'a' <= c <= 'z' then (c as int - 32) as char else c
  }

  /** The character a piece of kind `k` owned by `s` is written as. */
  function PieceChar(s: Side, k: Kind): (c: char)
    ensures s == One ==> 'a' <= c <= 'z'
    ensures s == Two ==> 'A' <= c <= 'Z'
  {
    if s == One then KindLetter(k) else Upper(KindLetter(k))
  }

  function OccupantChar(o: Occupant): char {
    match o
    case Empty => '.'
    case Piece(s, k) => PieceChar(s, k)
  }

  /** The characters a board row may hold. */
  predicate IsOccupantChar(c: char) {
    c in ".pnbrqkPNBRQK"
  }

  /** Reads one board character; characters outside the alphabet read as
      empty, and callers check IsOccupantChar first. */
  function Decode(c: char): Occupant {
    match c
    case 'p' => Piece(One, Pawn)
    case 'n' => Piece(One, Knight)
    case 'b' => Piece(One, Bishop)
    case 'r' => Piece(One, Rook)
    case 'q' => Piece(One, Queen)
    case 'k' => Piece(One, King)
    case 'P' => Piece(Two, Pawn)
    case 'N' => Piece(Two, Knight)
    case 'B' => Piece(Two, Bishop)
    case 'R' => Piece(Two, Rook)
    case 'Q' => Piece(Two, Queen)
    case 'K' => Piece(Two, King)
    case _ => Empty
  }

  /** Every occupant is written with a character of the alphabet that reads back as it. */
  lemma DecodeOccupantChar(o: Occupant)
    ensures IsOccupantChar(OccupantChar(o))
    ensures Decode(OccupantChar(o)) == o
  {
  }

  /** Every character of the alphabet is the encoding of what it reads as. */
  lemma OccupantCharDecode(c: char)
    requires IsOccupantChar(c)
    ensures OccupantChar(Decode(c)) == c
  {
  }

  /** A lower-case character is a side-1 piece, an upper-case one a side-2
      piece, and '.' is empty: the source's islower/isupper tests. */
  lemma DecodeCase(c: char)
    requires IsOccupantChar(c)
    ensures Owned(Decode(c), One) <==> 'a' <= c <= 'z'
    ensures Owned(Decode(c), Two) <==> 'A' <= c <= 'Z'
    ensures Decode(c) == Empty <==> c == '.'
  {
  }
}
