/**
 Splitting a long message into chunks, at newlines where possible, without losing anything but the
 whitespace at the cuts.
 */
module SplitMessage {

  /** The characters that stripping removes. */
  predicate IsSpace(c: char) {
    var n := c as int;
    || 0x09 <= n <= 0x0D || 0x1C <= n <= 0x20 || n == 0x85 || n == 0xA0
    || n == 0x1680 || 0x2000 <= n <= 0x200A || n == 0x2028 || n == 0x2029 || n == 0x202F || n == 0x205F || n == 0x3000
  }

  /** The 29 whitespace characters, and no others. */
  lemma SpacesListed(c: char)
    ensures IsSpace(c) <==>
            c in "\t\n\U{B}\U{C}\r\U{1C}\U{1D}\U{1E}\U{1F} \U{85}\U{A0}\U{1680}" +
                 "\U{2000}\U{2001}\U{2002}\U{2003}\U{2004}\U{2005}\U{2006}\U{2007}\U{2008}\U{2009}\U{200A}" +
                 "\U{2028}\U{2029}\U{202F}\U{205F}\U{3000}"
  {
  }

  predicate AllSpace(s: string) {
    forall i | 0 <= i < |s| :: IsSpace(s[i])
  }

  /** How many leading characters are whitespace. */
  function LeadingSpace(s: string): (n: nat)
    ensures n <= |s| && AllSpace(s[..n]) && (n < |s| ==> !IsSpace(s[n]))
  {
    if s == "" || !IsSpace(s[0]) then 0 else
      var n := 1 + LeadingSpace(s[1..]);
      assert s[..n] == [s[0]] + s[1..][..n - 1];
      n
  }

  /** Where the trailing whitespace begins. */
  function TrailingSpace(s: string): (n: nat)
    ensures n <= |s| && AllSpace(s[n..]) && (n > 0 ==> !IsSpace(s[n - 1]))
    ensures forall i | 0 <= i < |s| && !IsSpace(s[i]) :: i < n
  {
    if s == "" || !IsSpace(s[|s| - 1]) then |s| else
      var n := TrailingSpace(s[..|s| - 1]);
      assert s[n..] == s[..|s| - 1][n..] + [s[|s| - 1]];
      n
  }

  function LStrip(s: string): string { s[LeadingSpace(s)..] }

  function RStrip(s: string): string { s[..TrailingSpace(s)] }

  /** The last newline among the first `n` characters, or -1. */
  function LastNewline(s: string, n: nat): (i: int)
    requires n <= |s|
    ensures -1 <= i < n
    ensures i >= 0 ==> s[i] == '\n'
    ensures forall j | i < j < n :: s[j] != '\n'
  {
    if n == 0 then -1 else if s[n - 1] == '\n' then n - 1 else LastNewline(s, n - 1)
  }

  /** A cut before the last newline of the window; at the limit if there is none to cut before. */
  function CutAt(s: string, limit: nat): (cut: nat)
    requires 1 <= limit < |s|
    ensures 1 <= cut <= limit
    ensures cut < limit ==> s[cut] == '\n'
    ensures forall j | 1 <= j < limit && s[j] == '\n' :: j <= cut && cut < limit
  {
    var cut := LastNewline(s, limit);
    if cut <= 0 then limit else cut
  }

  predicate EndsVisible(s: string) {
    s != "" ==> !IsSpace(s[|s| - 1])
  }

  /** A chunk and the whitespace dropped behind it. */
  datatype Piece = Piece(chunk: string, gap: string)

  function Rest(s: string, limit: nat): (r: string)
    requires 1 <= limit < |s|
    ensures |r| < |s|
  {
    LStrip(s[CutAt(s, limit)..])
  }

  function FirstPiece(s: string, limit: nat): Piece
    requires 1 <= limit < |s|
  {
    var cut := CutAt(s, limit);
    var chunk := RStrip(s[..cut]);
    Piece(chunk, s[|chunk|..|s| - |Rest(s, limit)|])
  }

  function Pieces(s: string, limit: nat): seq<Piece>
    requires limit >= 1
    decreases |s|
  {
    if |s| <= limit then (if s == "" then [] else [Piece(s, "")])
    else [FirstPiece(s, limit)] + Pieces(Rest(s, limit), limit)
  }

  /** What the program returns; a text within the limit is left alone, even if it is empty. */
  function SplitPieces(text: string, limit: nat): seq<Piece>
    requires limit >= 1
  {
    if |text| <= limit then [Piece(text, "")] else Pieces(text, limit)
  }

  function Chunks(pieces: seq<Piece>): seq<string> {
    if pieces == [] then [] else [pieces[0].chunk] + Chunks(pieces[1..])
  }

  /** Chunks and gaps written one after another. */
  function Woven(pieces: seq<Piece>): string {
    if pieces == [] then "" else pieces[0].chunk + pieces[0].gap + Woven(pieces[1..])
  }

  /** What is first and what remains, in terms of the cut. */
  lemma FirstPieceParts(s: string, limit: nat)
    requires 1 <= limit < |s|
    ensures var cut := CutAt(s, limit);
            var n, m := TrailingSpace(s[..cut]), LeadingSpace(s[cut..]);
            && n <= cut && m <= |s| - cut
            && Rest(s, limit) == s[cut + m..] && FirstPiece(s, limit) == Piece(s[..n], s[n..cut + m])
  {
    var cut := CutAt(s, limit);
    var n, m := TrailingSpace(s[..cut]), LeadingSpace(s[cut..]);
    assert s[cut..][m..] == s[cut + m..];
    assert s[..cut][..n] == s[..n];
  }

  lemma ThreeParts(s: string, i: nat, j: nat)
    requires i <= j <= |s|
    ensures s == s[..i] + s[i..j] + s[j..]
  {
  }

  predicate StartsVisible(s: string) {
    s != "" && !IsSpace(s[0])
  }

  lemma FirstPieceVisible(s: string, limit: nat)
    requires 1 <= limit < |s|
    ensures var chunk := FirstPiece(s, limit).chunk;
            && (Rest(s, limit) != "" ==> StartsVisible(Rest(s, limit)))
            && EndsVisible(chunk) && (StartsVisible(s) ==> StartsVisible(chunk))
  {
    FirstPieceParts(s, limit);
    assert StartsVisible(s) ==> !IsSpace(s[..CutAt(s, limit)][0]);
  }

  lemma FirstPieceExact(s: string, limit: nat)
    requires 1 <= limit < |s|
    ensures var p := FirstPiece(s, limit);
            && s == p.chunk + p.gap + Rest(s, limit)
            && AllSpace(p.gap) && |p.chunk| <= limit
  {
    var cut := CutAt(s, limit);
    var n, m := TrailingSpace(s[..cut]), LeadingSpace(s[cut..]);
    FirstPieceParts(s, limit);
    CutSplits(s, cut, n, m);
    ThreeParts(s, n, cut + m);
  }

  /** What is dropped at a cut is the end of one part and the start of the other. */
  lemma CutSplits(s: string, cut: nat, n: nat, m: nat)
    requires n <= cut <= cut + m <= |s|
    requires AllSpace(s[..cut][n..]) && AllSpace(s[cut..][..m])
    ensures AllSpace(s[n..cut + m])
  {
    assert s[n..cut + m] == s[..cut][n..] + s[cut..][..m];
  }

  /** The pieces fit the limit, only whitespace is dropped, and no chunk but the last ends with whitespace. */
  ghost predicate Fitting(pieces: seq<Piece>, limit: nat) {
    && (forall i | 0 <= i < |pieces| :: |pieces[i].chunk| <= limit && AllSpace(pieces[i].gap))
    && (forall i | 0 <= i < |pieces| - 1 :: EndsVisible(pieces[i].chunk))
  }

  lemma FittingGrows(first: Piece, rest: seq<Piece>, limit: nat)
    requires |first.chunk| <= limit && AllSpace(first.gap) && EndsVisible(first.chunk) && Fitting(rest, limit)
    ensures Fitting([first] + rest, limit)
  {
    var all := [first] + rest;
    assert forall i | 1 <= i < |all| :: all[i] == rest[i - 1];
  }

  lemma WovenGrows(first: Piece, rest: seq<Piece>)
    ensures Woven([first] + rest) == first.chunk + first.gap + Woven(rest)
  {
    assert ([first] + rest)[1..] == rest;
  }

  lemma {:induction false} PiecesExact(s: string, limit: nat)
    requires limit >= 1
    ensures Woven(Pieces(s, limit)) == s && Fitting(Pieces(s, limit), limit)
    decreases |s|
  {
    if s == "" {
    } else if |s| <= limit {
      WovenGrows(Piece(s, ""), []);
    } else {
      FirstPieceExact(s, limit);
      FirstPieceVisible(s, limit);
      PiecesExact(Rest(s, limit), limit);
      FittingGrows(FirstPiece(s, limit), Pieces(Rest(s, limit), limit), limit);
      WovenGrows(FirstPiece(s, limit), Pieces(Rest(s, limit), limit));
    }
  }

  ghost predicate AllStartVisible(pieces: seq<Piece>) {
    forall i | 0 <= i < |pieces| :: StartsVisible(pieces[i].chunk)
  }

  /** Every chunk of a remainder that starts with a visible character does so too. */
  lemma {:induction false} ChunksVisible(s: string, limit: nat)
    requires limit >= 1 && (s != "" ==> StartsVisible(s))
    ensures AllStartVisible(Pieces(s, limit))
    decreases |s|
  {
    if |s| <= limit {
    } else {
      FirstPieceVisible(s, limit);
      ChunksVisible(Rest(s, limit), limit);
      VisibleGrows(FirstPiece(s, limit), Pieces(Rest(s, limit), limit));
    }
  }

  lemma VisibleGrows(first: Piece, rest: seq<Piece>)
    requires StartsVisible(first.chunk) && AllStartVisible(rest)
    ensures AllStartVisible([first] + rest)
  {
    var all := [first] + rest;
    assert forall i | 1 <= i < |all| :: all[i] == rest[i - 1];
  }

  /**
   For every text and every limit of at least one character: the text is the chunks with nothing but
   whitespace between and behind them, every chunk fits the limit, and every chunk after the first is
   non-empty and starts with a visible character, and none but the last ends with whitespace. A text within the limit,
   the empty one included, is its only chunk.
   */
  lemma SplitIsExact(text: string, limit: nat)
    requires limit >= 1
    ensures var pieces := SplitPieces(text, limit);
            && Woven(pieces) == text
            && (forall i | 0 <= i < |pieces| :: |pieces[i].chunk| <= limit && AllSpace(pieces[i].gap))
            && (forall i | 1 <= i < |pieces| :: StartsVisible(pieces[i].chunk))
            && (forall i | 0 <= i < |pieces| - 1 :: EndsVisible(pieces[i].chunk))
            && (|text| <= limit ==> Chunks(pieces) == [text])
  {
    if |text| <= limit {
      assert Woven([Piece(text, "")]) == text + "" + Woven([]);
      assert Chunks([Piece(text, "")]) == [text] + Chunks([]);
    } else {
      PiecesExact(text, limit);
      FirstPieceVisible(text, limit);
      ChunksVisible(Rest(text, limit), limit);
      LaterVisible(FirstPiece(text, limit), Pieces(Rest(text, limit), limit));
    }
  }

  lemma LaterVisible(first: Piece, rest: seq<Piece>)
    requires AllStartVisible(rest)
    ensures forall i | 1 <= i < |[first] + rest| :: StartsVisible(([first] + rest)[i].chunk)
  {
    var all := [first] + rest;
    assert forall i | 1 <= i < |all| :: all[i] == rest[i - 1];
  }

  /**
   Where a piece ends before a text that is too long: at its last newline within the limit, but for a leading one; if
   there is none, right at the limit. The chunk reaches up to there and the dropped whitespace goes beyond.
   */
  ghost predicate CutRight(text: string, piece: Piece, limit: nat) {
    && |text| > limit
    && exists cut :: 1 <= cut <= limit && |piece.chunk| <= cut <= |piece.chunk| + |piece.gap|
         && (cut < limit ==> text[cut] == '\n')
         && (forall j | 1 <= j < limit && text[j] == '\n' :: j <= cut && cut < limit)
  }

  lemma FirstPieceCut(s: string, limit: nat)
    requires 1 <= limit < |s|
    ensures CutRight(s, FirstPiece(s, limit), limit)
  {
    FirstPieceParts(s, limit);
    var cut := CutAt(s, limit);
    assert |FirstPiece(s, limit).chunk| <= cut <= |FirstPiece(s, limit).chunk| + |FirstPiece(s, limit).gap|;
  }

  lemma FirstOfPiecesCut(s: string, limit: nat)
    requires 1 <= limit < |s|
    ensures Pieces(s, limit)[0] == FirstPiece(s, limit) && Pieces(s, limit)[1..] == Pieces(Rest(s, limit), limit)
    ensures CutRight(Woven(Pieces(s, limit)), FirstPiece(s, limit), limit)
  {
    PiecesExact(s, limit);
    FirstPieceCut(s, limit);
  }

  lemma {:induction false} PiecesCut(s: string, limit: nat, pieces: seq<Piece>, i: nat)
    requires limit >= 1 && pieces == Pieces(s, limit) && i + 1 < |pieces|
    ensures CutRight(Woven(pieces[i..]), pieces[i], limit)
    decreases i
  {
    FirstOfPiecesCut(s, limit);
    if i == 0 {
      assert pieces[0..] == pieces;
    } else {
      var rest := pieces[1..];
      PiecesCut(Rest(s, limit), limit, rest, i - 1);
      assert pieces[i..] == rest[i - 1..] && pieces[i] == rest[i - 1];
    }
  }

  /** Every chunk but the last is cut as late as the limit allows, at a newline if there is one. */
  lemma SplitCutsLate(text: string, limit: nat, i: nat)
    requires limit >= 1 && i + 1 < |SplitPieces(text, limit)|
    ensures CutRight(Woven(SplitPieces(text, limit)[i..]), SplitPieces(text, limit)[i], limit)
  {
    PiecesCut(text, limit, Pieces(text, limit), i);
  }

  /** The visible characters of a text, in order. */
  function Visible(s: string): string {
    if s == "" then "" else (if IsSpace(s[0]) then "" else [s[0]]) + Visible(s[1..])
  }

  function VisibleOf(chunks: seq<string>): string {
    if chunks == [] then "" else Visible(chunks[0]) + VisibleOf(chunks[1..])
  }

  lemma {:induction false} VisibleJoins(a: string, b: string)
    ensures Visible(a + b) == Visible(a) + Visible(b)
    decreases |a|
  {
    if a == "" {
      assert a + b == b;
    } else {
      assert (a + b)[1..] == a[1..] + b;
      VisibleJoins(a[1..], b);
    }
  }

  lemma {:induction false} SpaceInvisible(s: string)
    requires AllSpace(s)
    ensures Visible(s) == ""
    decreases |s|
  {
    if s == "" {
    } else {
      SpaceInvisible(s[1..]);
    }
  }

  lemma {:induction false} WovenVisible(pieces: seq<Piece>)
    requires forall i | 0 <= i < |pieces| :: AllSpace(pieces[i].gap)
    ensures Visible(Woven(pieces)) == VisibleOf(Chunks(pieces))
    decreases |pieces|
  {
    if pieces == [] {
    } else {
      WovenVisible(pieces[1..]);
      VisibleJoins(pieces[0].chunk + pieces[0].gap, Woven(pieces[1..]));
      VisibleJoins(pieces[0].chunk, pieces[0].gap);
      SpaceInvisible(pieces[0].gap);
    }
  }

  /** No visible character is lost, added or moved by a split. */
  lemma NothingVisibleLost(text: string, limit: nat)
    requires limit >= 1
    ensures VisibleOf(Chunks(SplitPieces(text, limit))) == Visible(text)
  {
    SplitIsExact(text, limit);
    WovenVisible(SplitPieces(text, limit));
  }

  lemma ChunksStep(s: string, limit: nat)
    requires 1 <= limit < |s|
    ensures Chunks(Pieces(s, limit)) == [RStrip(s[..CutAt(s, limit)])] + Chunks(Pieces(Rest(s, limit), limit))
  {
    assert Pieces(s, limit)[1..] == Pieces(Rest(s, limit), limit);
  }

  method Split(text: string, limit: nat) returns (chunks: seq<string>)
    requires limit >= 1
    ensures chunks == Chunks(SplitPieces(text, limit))
  {
    if |text| <= limit {
      assert Chunks([Piece(text, "")]) == [text] + Chunks([]);
      return [text];
    }
    chunks := [];
    var remaining := text;
    ghost var all := Chunks(Pieces(text, limit));
    while |remaining| > limit
      invariant chunks + Chunks(Pieces(remaining, limit)) == all
      decreases |remaining|
    {
      var cut := LastNewline(remaining, limit);
      if cut <= 0 { cut := limit; }
      var chunk := RStrip(remaining[..cut]);
      CutGoesOn(remaining, limit, chunks, chunk, all);
      remaining := LStrip(remaining[cut..]);
      chunks := chunks + [chunk];
    }
    ChunksShort(remaining, limit);
    if remaining != "" { chunks := chunks + [remaining]; }
  }

  /** Moving the first chunk over leaves the whole as it was. */
  lemma CutGoesOn(remaining: string, limit: nat, chunks: seq<string>, chunk: string, all: seq<string>)
    requires 1 <= limit < |remaining| && chunk == RStrip(remaining[..CutAt(remaining, limit)])
    requires chunks + Chunks(Pieces(remaining, limit)) == all
    ensures chunks + [chunk] + Chunks(Pieces(Rest(remaining, limit), limit)) == all
  {
    ChunksStep(remaining, limit);
  }

  lemma ChunksShort(s: string, limit: nat)
    requires limit >= 1 && |s| <= limit
    ensures Chunks(Pieces(s, limit)) == if s == "" then [] else [s]
  {
    if s != "" { assert Chunks([Piece(s, "")]) == [s] + Chunks([]); }
  }
}
