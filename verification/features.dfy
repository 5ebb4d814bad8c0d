/** The sparse board encoding: every occupied square of a position becomes one
    index in [0, 768) naming (colour, piece type, square seen from that colour). */
module Features {
  import opened Wrappers
  import opened Text
  import opened Seqs

  const InputSize: nat := 768

  datatype Color = White | Black
  datatype Kind = Pawn | Knight | Bishop | Rook | Queen | King
  datatype Piece = Piece(color: Color, kind: Kind)

  /** A piece on a square: `file` counts from the a-file, `rank` from rank 1. */
  datatype Placement = Placement(piece: Piece, file: int, rank: int)

  datatype FenError =
    | MissingBoard            // blank position string: `split()[0]` fails
    | WrongRankCount(n: nat)  // the board field does not have 8 ranks
    | UnknownPiece(c: char)   // neither a digit nor a piece letter

  /** The piece-type table: pawn 0, knight 1, bishop 2, rook 3, queen 4, king 5. */
  function KindIndex(k: Kind): (n: nat)
    ensures n < 6
  {
    match k
    case Pawn => 0
    case Knight => 1
    case Bishop => 2
    case Rook => 3
    case Queen => 4
    case King => 5
  }

  function KindOfIndex(n: nat): (k: Kind)
    requires n < 6
    ensures KindIndex(k) == n
  {
    if n == 0 then Pawn
    else if n == 1 then Knight
    else if n == 2 then Bishop
    else if n == 3 then Rook
    else if n == 4 then Queen
    else King
  }

  /** Looks a lower-case letter up in the piece-type table. */
  function KindOfLetter(c: char): Option<Kind> {
    if c == 'p' then Some(Pawn)
    else if c == 'n' then Some(Knight)
    else if c == 'b' then Some(Bishop)
    else if c == 'r' then Some(Rook)
    else if c == 'q' then Some(Queen)
    else if c == 'k' then Some(King)
    else None
  }

  /** The letter a position string uses for a piece: upper case for white. */
  function PieceLetter(p: Piece): char {
    var l := match p.kind
      case Pawn => 'p'
      case Knight => 'n'
      case Bishop => 'b'
      case Rook => 'r'
      case Queen => 'q'
      case King => 'k';
    if p.color == White then l - 'a' + 'A' else l
  }

  /** The piece a non-digit character stands for: its colour from its case, its
      type from the table; `None` where the source's table lookup fails. */
  function PieceOfChar(c: char): (r: Option<Piece>)
    ensures r.Some? ==> PieceLetter(r.value) == c
  {
    match KindOfLetter(Lower(c))
    case None => None
    case Some(k) => Some(Piece(if IsUpper(c) then White else Black, k))
  }

  /** Exactly the twelve letters of the piece table stand for a piece. */
  lemma PieceChars(c: char)
    ensures PieceOfChar(c).Some? <==> c in "pnbrqkPNBRQK"
  {
  }

  lemma LetterRoundTrip(p: Piece)
    ensures PieceOfChar(PieceLetter(p)) == Some(p)
  {
  }

  function ColorOffset(c: Color): nat {
    if c == White then 0 else 6
  }

  /** The square index seen from the piece's own side: black ranks are mirrored. */
  function SquareIndex(c: Color, file: int, rank: int): int {
    if c == White then rank * 8 + file else (7 - rank) * 8 + file
  }

  /** The input index of a piece on (file, rank). */
  function FeatureIndex(p: Piece, file: int, rank: int): (idx: int)
    ensures 0 <= file < 8 && 0 <= rank < 8 ==> 0 <= idx < InputSize
    ensures 0 <= file < 8 && 0 <= rank < 8 ==>
              idx / 64 == ColorOffset(p.color) + KindIndex(p.kind)
  {
    (ColorOffset(p.color) + KindIndex(p.kind)) * 64 + SquareIndex(p.color, file, rank)
  }

  /** Inverse of `FeatureIndex` on the 768 indices. */
  function DecodeFeature(idx: int): Placement
    requires 0 <= idx < InputSize
  {
    var plane := idx / 64;
    var sq := idx % 64;
    var color := if plane < 6 then White else Black;
    var row := sq / 8;
    Placement(Piece(color, KindOfIndex(plane % 6)), sq % 8, if color == White then row else 7 - row)
  }

  lemma EncodeDecode(p: Piece, file: int, rank: int)
    requires 0 <= file < 8 && 0 <= rank < 8
    ensures DecodeFeature(FeatureIndex(p, file, rank)) == Placement(p, file, rank)
  {
    var idx := FeatureIndex(p, file, rank);
    var plane := ColorOffset(p.color) + KindIndex(p.kind);
    var sq := SquareIndex(p.color, file, rank);
    assert 0 <= sq < 64;
    assert idx / 64 == plane && idx % 64 == sq;
    assert sq / 8 == (if p.color == White then rank else 7 - rank);
    assert sq % 8 == file;
    assert plane % 6 == KindIndex(p.kind);
  }

  lemma DecodeEncode(idx: int)
    requires 0 <= idx < InputSize
    ensures var pl := DecodeFeature(idx);
            0 <= pl.file < 8 && 0 <= pl.rank < 8 && FeatureIndex(pl.piece, pl.file, pl.rank) == idx
  {
    var pl := DecodeFeature(idx);
    var plane := idx / 64;
    var sq := idx % 64;
    assert idx == plane * 64 + sq;
    assert sq == (sq / 8) * 8 + sq % 8;
    assert ColorOffset(pl.piece.color) + KindIndex(pl.piece.kind) == plane;
    assert SquareIndex(pl.piece.color, pl.file, pl.rank) == sq;
  }

  /** Distinct on-board placements never share an input index. */
  lemma FeatureIndexInjective(p: Piece, f: int, r: int, q: Piece, g: int, s: int)
    requires 0 <= f < 8 && 0 <= r < 8 && 0 <= g < 8 && 0 <= s < 8
    requires FeatureIndex(p, f, r) == FeatureIndex(q, g, s)
    ensures p == q && f == g && r == s
  {
    EncodeDecode(p, f, r);
    EncodeDecode(q, g, s);
  }

  /** Same piece type, same square from each side's own view, opposite colours:
      the indices are exactly six 64-square planes apart. */
  lemma ColorPlaneOffset(k: Kind, file: int, rank: int)
    requires 0 <= file < 8 && 0 <= rank < 8
    ensures FeatureIndex(Piece(Black, k), file, 7 - rank) == FeatureIndex(Piece(White, k), file, rank) + 6 * 64
  {
  }

  /** The literal case: white king on a1 and black king on a8. */
  lemma KingCornerExample()
    ensures FeatureIndex(Piece(White, King), 0, 0) == 320
    ensures FeatureIndex(Piece(Black, King), 0, 7) == 704
  {
  }

  /** Files a rank's text spans: digits skip that many files, letters take one. */
  function Width(text: string): nat {
    if |text| == 0 then 0
    else StepWidth(text[0]) + Width(text[1..])
  }

  /** The non-digit characters of `text`, in order. */
  function Letters(text: string): string {
    if |text| == 0 then ""
    else (if IsDigit(text[0]) then "" else [text[0]]) + Letters(text[1..])
  }

  function LettersOf(pl: seq<Placement>): (s: string)
    ensures |s| == |pl|
  {
    if |pl| == 0 then "" else [PieceLetter(pl[0].piece)] + LettersOf(pl[1..])
  }

  /** Position of a placement in reading order (rank 8 first, files a to h). */
  function ReadingKey(pl: Placement): int {
    (7 - pl.rank) * 8 + pl.file
  }

  /** Every character of a rank's text is a digit or a piece letter. */
  predicate RankChars(text: string) {
    forall k :: 0 <= k < |text| ==> IsDigit(text[k]) || PieceOfChar(text[k]).Some?
  }

  /** Every rank's text is made of digits and piece letters. */
  predicate BoardChars(ranks: seq<string>) {
    forall k :: 0 <= k < |ranks| ==> RankChars(ranks[k])
  }

  /** The inner loop of the encoder over one rank's text, starting at `file`. */
  function WalkRank(text: string, file: int, rank: int): (r: Result<seq<Placement>, FenError>)
    ensures r.Ok? ==> LettersOf(r.value) == Letters(text)
    ensures r.Err? ==> r.error.UnknownPiece?
    decreases |text|
  {
    if |text| == 0 then Ok([])
    else if IsDigit(text[0]) then
      WalkRank(text[1..], file + DigitValue(text[0]), rank)
    else match PieceOfChar(text[0])
      case None => Err(UnknownPiece(text[0]))
      case Some(p) =>
        var rest := WalkRank(text[1..], file + 1, rank);
        if rest.Err? then Err(rest.error)
        else
          var out := [Placement(p, file, rank)] + rest.value;
          assert out[1..] == rest.value;
          Ok(out)
  }

  /** The inner loop succeeds exactly when every character of the rank is a
      digit or a piece letter. */
  lemma {:induction false} WalkRankOk(text: string, file: int, rank: int)
    ensures WalkRank(text, file, rank).Ok? <==> RankChars(text)
    decreases |text|
  {
    if |text| > 0 {
      var next := if IsDigit(text[0]) then file + DigitValue(text[0]) else file + 1;
      WalkRankOk(text[1..], next, rank);
      assert forall k :: 1 <= k < |text| ==> text[k] == text[1..][k - 1];
    }
  }

  /** Where the inner loop puts each letter: the piece letter at position `j`
      of the text is placement number "letters before `j`", on file `file`
      plus the files the text before `j` spans. */
  lemma {:induction false} WalkRankSquares(text: string, file: int, rank: int)
    requires WalkRank(text, file, rank).Ok?
    ensures var pl := WalkRank(text, file, rank).value;
            forall j :: 0 <= j < |text| && !IsDigit(text[j]) ==>
              && |Letters(text[..j])| < |pl|
              && PieceOfChar(text[j]) == Some(pl[|Letters(text[..j])|].piece)
              && pl[|Letters(text[..j])|].file == file + Width(text[..j])
              && pl[|Letters(text[..j])|].rank == rank
    decreases |text|
  {
    if |text| > 0 {
      var pl := WalkRank(text, file, rank).value;
      var t := text[1..];
      var next := if IsDigit(text[0]) then file + DigitValue(text[0]) else file + 1;
      WalkRankStep(text, file, rank);
      WalkRankSquares(t, next, rank);
      forall j | 0 <= j < |text| && !IsDigit(text[j])
        ensures && |Letters(text[..j])| < |pl|
                && PieceOfChar(text[j]) == Some(pl[|Letters(text[..j])|].piece)
                && pl[|Letters(text[..j])|].file == file + Width(text[..j])
                && pl[|Letters(text[..j])|].rank == rank
      {
        if j == 0 {
          assert text[..0] == "";
        } else {
          PrefixStep(text, j);
          assert text[j] == t[j - 1];
        }
      }
    }
  }

  /** `WalkRankSquares` for one letter. */
  lemma RankSquare(text: string, file: int, rank: int, j: nat)
    requires WalkRank(text, file, rank).Ok?
    requires j < |text| && !IsDigit(text[j])
    ensures var pl := WalkRank(text, file, rank).value;
            && |Letters(text[..j])| < |pl|
            && PieceOfChar(text[j]) == Some(pl[|Letters(text[..j])|].piece)
            && pl[|Letters(text[..j])|].file == file + Width(text[..j])
            && pl[|Letters(text[..j])|].rank == rank
  {
    WalkRankSquares(text, file, rank);
  }

  /** Files one character of a rank spans. */
  function StepWidth(c: char): nat {
    if IsDigit(c) then DigitValue(c) else 1
  }

  /** One turn of the inner loop: a digit moves the file on, a letter is
      placed on the current file ahead of the rest of the rank. */
  lemma WalkRankStep(text: string, file: int, rank: int)
    requires |text| > 0 && WalkRank(text, file, rank).Ok?
    ensures IsDigit(text[0]) ==>
              WalkRank(text, file, rank) == WalkRank(text[1..], file + DigitValue(text[0]), rank)
    ensures !IsDigit(text[0]) ==>
              && WalkRank(text[1..], file + 1, rank).Ok?
              && WalkRank(text, file, rank).value ==
                   [Placement(PieceOfChar(text[0]).value, file, rank)] + WalkRank(text[1..], file + 1, rank).value
  {
  }

  /** The first `j` characters of a text are its first character followed by
      the first `j - 1` of the rest. */
  lemma PrefixStep(text: string, j: nat)
    requires 0 < j <= |text|
    ensures Letters(text[..j]) == (if IsDigit(text[0]) then "" else [text[0]]) + Letters(text[1..][..j - 1])
    ensures Width(text[..j]) == StepWidth(text[0]) + Width(text[1..][..j - 1])
  {
    assert text[..j][1..] == text[1..][..j - 1];
  }

  /** Every letter of the text is placed somewhere: each placement number
      below the letter count is "letters before `j`" for some letter `j`. */
  lemma {:induction false} LetterSlots(text: string, n: nat)
    requires n < |Letters(text)|
    ensures exists j :: 0 <= j < |text| && !IsDigit(text[j]) && |Letters(text[..j])| == n
    decreases |text|
  {
    var t := text[1..];
    if !IsDigit(text[0]) && n == 0 {
      assert text[..0] == "";
    } else {
      var m := if IsDigit(text[0]) then n else n - 1;
      LetterSlots(t, m);
      var j :| 0 <= j < |t| && !IsDigit(t[j]) && |Letters(t[..j])| == m;
      assert text[..j + 1][1..] == t[..j];
      assert text[j + 1] == t[j];
    }
  }

  /** The inner loop keeps to its rank and to the files its text spans, and
      places the letters at strictly increasing files. */
  lemma {:induction false} WalkRankFiles(text: string, file: int, rank: int)
    requires WalkRank(text, file, rank).Ok?
    ensures var pl := WalkRank(text, file, rank).value;
            forall i :: 0 <= i < |pl| ==> pl[i].rank == rank && file <= pl[i].file < file + Width(text)
    ensures var pl := WalkRank(text, file, rank).value;
            forall i, j :: 0 <= i < j < |pl| ==> pl[i].file < pl[j].file
    decreases |text|
  {
    if |text| > 0 {
      var t := text[1..];
      WalkRankStep(text, file, rank);
      if IsDigit(text[0]) {
        WalkRankFiles(t, file + DigitValue(text[0]), rank);
        assert Width(text) == DigitValue(text[0]) + Width(t);
      } else {
        WalkRankFiles(t, file + 1, rank);
        assert Width(text) == 1 + Width(t);
        ConsFiles(Placement(PieceOfChar(text[0]).value, file, rank), WalkRank(t, file + 1, rank).value, file, Width(t));
      }
    }
  }

  /** A placement on `file` put ahead of placements on later files of the same
      rank keeps the files within range and strictly increasing. */
  lemma ConsFiles(p: Placement, rest: seq<Placement>, file: int, w: nat)
    requires p.file == file
    requires forall i :: 0 <= i < |rest| ==> rest[i].rank == p.rank && file + 1 <= rest[i].file < file + 1 + w
    requires forall i, j :: 0 <= i < j < |rest| ==> rest[i].file < rest[j].file
    ensures var pl := [p] + rest;
            forall i :: 0 <= i < |pl| ==> pl[i].rank == p.rank && file <= pl[i].file < file + 1 + w
    ensures var pl := [p] + rest;
            forall i, j :: 0 <= i < j < |pl| ==> pl[i].file < pl[j].file
  {
    var pl := [p] + rest;
    forall i | 0 <= i < |pl| ensures pl[i].rank == p.rank && file <= pl[i].file < file + 1 + w {
      if i > 0 {
        assert pl[i] == rest[i - 1];
      }
    }
    forall i, j | 0 <= i < j < |pl| ensures pl[i].file < pl[j].file {
      assert pl[j] == rest[j - 1];
      if i > 0 {
        assert pl[i] == rest[i - 1];
      }
    }
  }

  /** Width of every rank at most 8: each piece lands on a real file. */
  predicate RanksFit(ranks: seq<string>) {
    forall k :: 0 <= k < |ranks| ==> Width(ranks[k]) <= 8
  }

  /** The outer loop of the encoder: `ranks[0]` is FEN rank index `fenRank`, i.e.
      board rank `7 - fenRank`. */
  function WalkBoard(ranks: seq<string>, fenRank: nat): (r: Result<seq<Placement>, FenError>)
    ensures r.Ok? ==> LettersOf(r.value) == LettersAll(ranks)
    ensures r.Err? ==> r.error.UnknownPiece?
    decreases |ranks|
  {
    if |ranks| == 0 then Ok([])
    else
      var first := WalkRank(ranks[0], 0, 7 - fenRank);
      if first.Err? then Err(first.error)
      else
        var rest := WalkBoard(ranks[1..], fenRank + 1);
        if rest.Err? then Err(rest.error)
        else
          var out := first.value + rest.value;
          LettersAppend(first.value, rest.value);
          Ok(out)
  }

  /** On ranks that fit, the outer loop places every piece on the board, in
      strictly increasing reading order, within the ranks it walked. */
  lemma {:induction false} WalkBoardOrder(ranks: seq<string>, fenRank: nat)
    requires WalkBoard(ranks, fenRank).Ok? && RanksFit(ranks)
    ensures var pl := WalkBoard(ranks, fenRank).value;
            forall i :: 0 <= i < |pl| ==>
              0 <= pl[i].file < 8 && fenRank * 8 <= ReadingKey(pl[i]) < (fenRank + |ranks|) * 8
    ensures var pl := WalkBoard(ranks, fenRank).value;
            forall i, j :: 0 <= i < j < |pl| ==> ReadingKey(pl[i]) < ReadingKey(pl[j])
    decreases |ranks|
  {
    if |ranks| > 0 {
      WalkBoardStep(ranks, fenRank);
      var first := WalkRank(ranks[0], 0, 7 - fenRank).value;
      var rest := WalkBoard(ranks[1..], fenRank + 1).value;
      WalkRankFiles(ranks[0], 0, 7 - fenRank);
      RanksFitTail(ranks);
      WalkBoardOrder(ranks[1..], fenRank + 1);
      ConcatKeys(first, rest, fenRank, |ranks| - 1);
    }
  }

  lemma RanksFitTail(ranks: seq<string>)
    requires |ranks| > 0 && RanksFit(ranks)
    ensures Width(ranks[0]) <= 8 && RanksFit(ranks[1..])
  {
    forall k | 0 <= k < |ranks[1..]| ensures Width(ranks[1..][k]) <= 8 {
      assert ranks[1..][k] == ranks[k + 1];
    }
  }

  /** One rank's placements, on board rank `7 - fenRank` at increasing files,
      followed by placements from the ranks below it in reading order, are in
      reading order. */
  lemma ConcatKeys(first: seq<Placement>, rest: seq<Placement>, fenRank: int, n: nat)
    requires forall i :: 0 <= i < |first| ==> first[i].rank == 7 - fenRank && 0 <= first[i].file < 8
    requires forall i, j :: 0 <= i < j < |first| ==> first[i].file < first[j].file
    requires forall i :: 0 <= i < |rest| ==>
               0 <= rest[i].file < 8 && (fenRank + 1) * 8 <= ReadingKey(rest[i]) < (fenRank + 1 + n) * 8
    requires forall i, j :: 0 <= i < j < |rest| ==> ReadingKey(rest[i]) < ReadingKey(rest[j])
    ensures var pl := first + rest;
            forall i :: 0 <= i < |pl| ==>
              0 <= pl[i].file < 8 && fenRank * 8 <= ReadingKey(pl[i]) < (fenRank + 1 + n) * 8
    ensures var pl := first + rest;
            forall i, j :: 0 <= i < j < |pl| ==> ReadingKey(pl[i]) < ReadingKey(pl[j])
  {
    var pl := first + rest;
    forall i | 0 <= i < |pl|
      ensures 0 <= pl[i].file < 8 && fenRank * 8 <= ReadingKey(pl[i]) < (fenRank + 1 + n) * 8
    {
      if i < |first| {
        assert pl[i] == first[i];
      } else {
        assert pl[i] == rest[i - |first|];
      }
    }
    forall i, j | 0 <= i < j < |pl| ensures ReadingKey(pl[i]) < ReadingKey(pl[j]) {
      if j < |first| {
        assert pl[i] == first[i] && pl[j] == first[j];
      } else if i < |first| {
        assert pl[i] == first[i] && pl[j] == rest[j - |first|];
      } else {
        assert pl[i] == rest[i - |first|] && pl[j] == rest[j - |first|];
      }
    }
  }

  function LettersAll(ranks: seq<string>): string {
    if |ranks| == 0 then "" else Letters(ranks[0]) + LettersAll(ranks[1..])
  }

  /** Position of the character `ranks[k][j]` among the features: the number
      of piece letters read before it. */
  function Slot(ranks: seq<string>, k: nat, j: nat): nat
    requires k < |ranks| && j <= |ranks[k]|
  {
    |LettersAll(ranks[..k])| + |Letters(ranks[k][..j])|
  }

  /** The outer loop succeeds exactly when every rank is made of digits and
      piece letters. */
  lemma {:induction false} WalkBoardOk(ranks: seq<string>, fenRank: nat)
    ensures WalkBoard(ranks, fenRank).Ok? <==> BoardChars(ranks)
    decreases |ranks|
  {
    if |ranks| > 0 {
      WalkBoardOk(ranks[1..], fenRank + 1);
      WalkRankOk(ranks[0], 0, 7 - fenRank);
      BoardCharsStep(ranks);
    }
  }

  lemma BoardCharsStep(ranks: seq<string>)
    requires |ranks| > 0
    ensures BoardChars(ranks) <==> RankChars(ranks[0]) && BoardChars(ranks[1..])
  {
    if BoardChars(ranks) {
      forall k | 0 <= k < |ranks[1..]| ensures RankChars(ranks[1..][k]) {
        assert ranks[1..][k] == ranks[k + 1];
      }
    }
    if RankChars(ranks[0]) && BoardChars(ranks[1..]) {
      forall k | 0 <= k < |ranks| ensures RankChars(ranks[k]) {
        if k > 0 {
          assert ranks[k] == ranks[1..][k - 1];
        }
      }
    }
  }

  /** One turn of the outer loop: the first rank's placements, then the rest. */
  lemma WalkBoardStep(ranks: seq<string>, fenRank: nat)
    requires |ranks| > 0 && WalkBoard(ranks, fenRank).Ok?
    ensures WalkRank(ranks[0], 0, 7 - fenRank).Ok? && WalkBoard(ranks[1..], fenRank + 1).Ok?
    ensures WalkBoard(ranks, fenRank).value ==
              WalkRank(ranks[0], 0, 7 - fenRank).value + WalkBoard(ranks[1..], fenRank + 1).value
  {
  }

  /** Where the outer loop puts each letter: the piece letter at `ranks[k][j]`
      is placement number `Slot(ranks, k, j)`, on the file the rank's text
      before it spans and on board rank `7 - (fenRank + k)`. */
  lemma WalkBoardSquares(ranks: seq<string>, fenRank: nat)
    requires WalkBoard(ranks, fenRank).Ok?
    ensures var pl := WalkBoard(ranks, fenRank).value;
            forall k, j :: 0 <= k < |ranks| && 0 <= j < |ranks[k]| && !IsDigit(ranks[k][j]) ==>
              && Slot(ranks, k, j) < |pl|
              && PieceOfChar(ranks[k][j]) == Some(pl[Slot(ranks, k, j)].piece)
              && pl[Slot(ranks, k, j)].file == Width(ranks[k][..j])
              && pl[Slot(ranks, k, j)].rank == 7 - (fenRank + k)
  {
    forall k, j | 0 <= k < |ranks| && 0 <= j < |ranks[k]| && !IsDigit(ranks[k][j]) {
      BoardSquare(ranks, fenRank, k, j);
    }
  }

  /** `WalkBoardSquares` for one letter, by induction on its rank. */
  lemma {:induction false} BoardSquare(ranks: seq<string>, fenRank: nat, k: nat, j: nat)
    requires WalkBoard(ranks, fenRank).Ok?
    requires k < |ranks| && j < |ranks[k]| && !IsDigit(ranks[k][j])
    ensures var pl := WalkBoard(ranks, fenRank).value;
            && Slot(ranks, k, j) < |pl|
            && PieceOfChar(ranks[k][j]) == Some(pl[Slot(ranks, k, j)].piece)
            && pl[Slot(ranks, k, j)].file == Width(ranks[k][..j])
            && pl[Slot(ranks, k, j)].rank == 7 - (fenRank + k)
    decreases k
  {
    if k == 0 {
      BoardSquareFirst(ranks, fenRank, j);
    } else {
      var pl := WalkBoard(ranks, fenRank).value;
      WalkBoardStep(ranks, fenRank);
      var first := WalkRank(ranks[0], 0, 7 - fenRank).value;
      var rest := WalkBoard(ranks[1..], fenRank + 1).value;
      assert |first| == |LettersOf(first)| == |Letters(ranks[0])|;
      SlotStep(ranks, k, j);
      BoardSquare(ranks[1..], fenRank + 1, k - 1, j);
      var n := Slot(ranks[1..], k - 1, j);
      var slot := Slot(ranks, k, j);
      assert slot == |first| + n;
      assert pl[slot] == rest[n];
      assert ranks[1..][k - 1][j] == ranks[k][j];
      assert ranks[1..][k - 1][..j] == ranks[k][..j];
      assert PieceOfChar(ranks[k][j]) == Some(rest[n].piece);
    }
  }

  /** `BoardSquare` for a letter of the first rank. */
  lemma BoardSquareFirst(ranks: seq<string>, fenRank: nat, j: nat)
    requires WalkBoard(ranks, fenRank).Ok?
    requires 0 < |ranks| && j < |ranks[0]| && !IsDigit(ranks[0][j])
    ensures var pl := WalkBoard(ranks, fenRank).value;
            && Slot(ranks, 0, j) < |pl|
            && PieceOfChar(ranks[0][j]) == Some(pl[Slot(ranks, 0, j)].piece)
            && pl[Slot(ranks, 0, j)].file == Width(ranks[0][..j])
            && pl[Slot(ranks, 0, j)].rank == 7 - fenRank
  {
    var pl := WalkBoard(ranks, fenRank).value;
    WalkBoardStep(ranks, fenRank);
    var first := WalkRank(ranks[0], 0, 7 - fenRank).value;
    RankSquare(ranks[0], 0, 7 - fenRank, j);
    var n := |Letters(ranks[0][..j])|;
    assert n < |first|;
    assert ranks[..0] == [];
    assert Slot(ranks, 0, j) == n;
    assert pl[n] == first[n];
    assert PieceOfChar(ranks[0][j]) == Some(first[n].piece);
    assert first[n].file == Width(ranks[0][..j]);
  }

  /** A slot past the first rank is the first rank's letter count plus the
      slot among the remaining ranks. */
  lemma SlotStep(ranks: seq<string>, k: nat, j: nat)
    requires 0 < k < |ranks| && j <= |ranks[k]|
    ensures ranks[1..][k - 1] == ranks[k]
    ensures Slot(ranks, k, j) == |Letters(ranks[0])| + Slot(ranks[1..], k - 1, j)
  {
    assert ranks[..k][1..] == ranks[1..][..k - 1];
  }

  /** Every feature comes from some letter: each position below the letter
      count of the board is the slot of a piece letter. */
  lemma {:induction false} SlotsCover(ranks: seq<string>, n: nat)
    requires n < |LettersAll(ranks)|
    ensures exists k, j :: 0 <= k < |ranks| && 0 <= j < |ranks[k]| && !IsDigit(ranks[k][j]) && Slot(ranks, k, j) == n
    decreases |ranks|
  {
    var a := |Letters(ranks[0])|;
    if n < a {
      LetterSlots(ranks[0], n);
      var j :| 0 <= j < |ranks[0]| && !IsDigit(ranks[0][j]) && |Letters(ranks[0][..j])| == n;
      assert ranks[..0] == [];
      assert Slot(ranks, 0, j) == n;
    } else {
      SlotsCover(ranks[1..], n - a);
      var k, j :| 0 <= k < |ranks[1..]| && 0 <= j < |ranks[1..][k]| && !IsDigit(ranks[1..][k][j])
                  && Slot(ranks[1..], k, j) == n - a;
      SlotStep(ranks, k + 1, j);
      assert Slot(ranks, k + 1, j) == n;
    }
  }

  lemma {:induction false} LettersAppend(a: seq<Placement>, b: seq<Placement>)
    ensures LettersOf(a + b) == LettersOf(a) + LettersOf(b)
    decreases |a|
  {
    if |a| > 0 {
      assert (a + b)[1..] == a[1..] + b;
      LettersAppend(a[1..], b);
    } else {
      assert a + b == b;
    }
  }

  /** The placements of a position string, in reading order. */
  function FenPlacements(fen: string): Result<seq<Placement>, FenError> {
    match FirstField(fen)
    case None => Err(MissingBoard)
    case Some(board) =>
      var ranks := Split(board, '/');
      if |ranks| != 8 then Err(WrongRankCount(|ranks|)) else WalkBoard(ranks, 0)
  }

  /** `fen_to_features`: one index per piece letter of the board field, in
      reading order. The board field must split into exactly 8 ranks; when
      no rank spans more than 8 files the indices are in range and distinct. */
  function FenToFeatures(fen: string): (r: Result<seq<int>, FenError>)
    ensures r == Err(MissingBoard) <==> FirstField(fen).None?
    ensures FirstField(fen).Some? ==>
              var ranks := Split(FirstField(fen).value, '/');
              && ((r.Err? && r.error.WrongRankCount?) <==> |ranks| != 8)
              && (r.Ok? ==> |r.value| == |LettersAll(ranks)|)
              && (r.Ok? && RanksFit(ranks) ==>
                    (forall i :: 0 <= i < |r.value| ==> 0 <= r.value[i] < InputSize)
                    && Distinct(r.value))
  {
    match FenPlacements(fen)
    case Err(e) => Err(e)
    case Ok(pl) =>
      var ranks := Split(FirstField(fen).value, '/');
      var out := seq(|pl|, i requires 0 <= i < |pl| => FeatureIndex(pl[i].piece, pl[i].file, pl[i].rank));
      assert |pl| == |LettersOf(pl)|;
      assert RanksFit(ranks) ==>
               (forall i :: 0 <= i < |out| ==> 0 <= out[i] < InputSize) && Distinct(out) by {
        if RanksFit(ranks) {
          WalkBoardOrder(ranks, 0);
          PlacementsDistinct(pl);
        }
      }
      Ok(out)
  }

  /** What the encoder returns, letter by letter. With 8 ranks it succeeds
      exactly when every character of the board field is a digit or a piece
      letter, and then the letter at `ranks[k][j]` yields feature number
      `Slot(ranks, k, j)`: its piece on the file the text before it spans, on
      board rank `7 - k`. With `SlotsCover` and the length in `FenToFeatures`'s
      contract this pins down every entry of the result. */
  lemma FenToFeaturesSquares(fen: string)
    ensures FirstField(fen).Some? && |Split(FirstField(fen).value, '/')| == 8 ==>
              (FenToFeatures(fen).Ok? <==> BoardChars(Split(FirstField(fen).value, '/')))
    ensures var r := FenToFeatures(fen);
            r.Ok? ==>
              && FirstField(fen).Some?
              && var ranks := Split(FirstField(fen).value, '/');
                 |ranks| == 8 &&
                 forall k, j :: 0 <= k < |ranks| && 0 <= j < |ranks[k]| && !IsDigit(ranks[k][j]) ==>
                   && Slot(ranks, k, j) < |r.value|
                   && PieceOfChar(ranks[k][j]).Some?
                   && r.value[Slot(ranks, k, j)] ==
                        FeatureIndex(PieceOfChar(ranks[k][j]).value, Width(ranks[k][..j]), 7 - k)
  {
    if FirstField(fen).Some? {
      var ranks := Split(FirstField(fen).value, '/');
      if |ranks| == 8 {
        WalkBoardOk(ranks, 0);
        if WalkBoard(ranks, 0).Ok? {
          WalkBoardSquares(ranks, 0);
        }
      }
    }
  }

  /** Placements on real squares whose reading keys strictly increase have
      pairwise distinct feature indices. */
  lemma PlacementsDistinct(pl: seq<Placement>)
    requires forall i :: 0 <= i < |pl| ==> 0 <= pl[i].file < 8 && 0 <= ReadingKey(pl[i]) < 64
    requires forall i, j :: 0 <= i < j < |pl| ==> ReadingKey(pl[i]) < ReadingKey(pl[j])
    ensures forall i :: 0 <= i < |pl| ==> 0 <= FeatureIndex(pl[i].piece, pl[i].file, pl[i].rank) < InputSize
    ensures forall i, j :: 0 <= i < j < |pl| ==>
              FeatureIndex(pl[i].piece, pl[i].file, pl[i].rank) != FeatureIndex(pl[j].piece, pl[j].file, pl[j].rank)
  {
    forall i, j | 0 <= i < j < |pl|
      ensures FeatureIndex(pl[i].piece, pl[i].file, pl[i].rank) != FeatureIndex(pl[j].piece, pl[j].file, pl[j].rank)
    {
      if FeatureIndex(pl[i].piece, pl[i].file, pl[i].rank) == FeatureIndex(pl[j].piece, pl[j].file, pl[j].rank) {
        FeatureIndexInjective(pl[i].piece, pl[i].file, pl[i].rank, pl[j].piece, pl[j].file, pl[j].rank);
        assert false;
      }
    }
  }
}
