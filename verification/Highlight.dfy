/**
 highlightText: a text cut into plain and marked pieces around the matches of a search term.  Two
 characters match if `same` says so; Kotlin's indexOf(ignoreCase = true) compares character by character.
 */
module Highlight {
  import opened Wrappers

  datatype Piece = Plain(text: string) | Marked(text: string)

  type Same = (char, char) -> bool

  predicate OccursAt(text: string, term: string, same: Same, i: nat)
  {
    i + |term| <= |text| && forall k | 0 <= k < |term| :: same(term[k], text[i + k])
  }

  /** text.indexOf(term, start): the first occurrence from `start` on. */
  function IndexOf(text: string, term: string, same: Same, start: nat): (r: Option<nat>)
    ensures r.Some? ==> start <= r.value && OccursAt(text, term, same, r.value)
                        && forall i: nat | start <= i < r.value :: !OccursAt(text, term, same, i)
    ensures r.None? ==> forall i: nat | start <= i :: !OccursAt(text, term, same, i)
    decreases |text| - start
  {
    if start + |term| > |text| then None
    else if OccursAt(text, term, same, start) then Some(start)
    else IndexOf(text, term, same, start + 1)
  }

  // ----- what the pieces are --------------------------------------------------------------------

  /** The marks in the text, from `start` on. */
  function Marks(text: string, term: string, same: Same, start: nat): (marks: seq<nat>)
    requires term != ""
    decreases |text| - start
  {
    var idx := IndexOf(text, term, same, start);
    if idx.None? then [] else [idx.value] + Marks(text, term, same, idx.value + |term|)
  }

  /** The pieces of text[start..] when `n` characters are marked at each of the given places. */
  function Pieces(text: string, n: nat, marks: seq<nat>, start: nat): seq<Piece>
    requires start <= |text| && Fit(|text|, n, marks, start)
  {
    if marks == [] then [Plain(text[start..])]
    else [Plain(text[start..marks[0]]), Marked(text[marks[0]..marks[0] + n])] +
         Pieces(text, n, marks[1..], marks[0] + n)
  }

  /** Places in order, far enough apart for pieces of length `n`, within `size`. */
  ghost predicate Fit(size: nat, n: nat, marks: seq<nat>, start: nat)
  {
    marks == [] || (start <= marks[0] && marks[0] + n <= size && Fit(size, n, marks[1..], marks[0] + n))
  }

  function TextOf(pieces: seq<Piece>): string
  {
    if pieces == [] then "" else pieces[0].text + TextOf(pieces[1..])
  }

  lemma {:induction false} MarksFit(text: string, term: string, same: Same, start: nat)
    requires term != ""
    ensures Fit(|text|, |term|, Marks(text, term, same, start), start)
    decreases |text| - start
  {
    var idx := IndexOf(text, term, same, start);
    if idx.Some? {
      MarksFit(text, term, same, idx.value + |term|);
      var marks := Marks(text, term, same, start);
      assert marks[1..] == Marks(text, term, same, idx.value + |term|);
    }
  }

  /** The pieces, marks and all, are the text. */
  lemma {:induction false} PiecesAreText(text: string, n: nat, marks: seq<nat>, start: nat)
    requires start <= |text| && Fit(|text|, n, marks, start)
    ensures TextOf(Pieces(text, n, marks, start)) == text[start..]
  {
    if marks == [] {
      assert Pieces(text, n, marks, start)[1..] == [];
    } else {
      var rest := Pieces(text, n, marks[1..], marks[0] + n);
      PiecesAreText(text, n, marks[1..], marks[0] + n);
      var pieces := Pieces(text, n, marks, start);
      assert pieces[1..][1..] == rest;
      assert text[start..] == text[start..marks[0]] + (text[marks[0]..marks[0] + n] + text[marks[0] + n..]);
    }
  }

  /** Every mark is an occurrence. */
  lemma {:induction false} MarksAreOccurrences(text: string, term: string, same: Same, start: nat, k: nat)
    requires term != "" && k < |Marks(text, term, same, start)|
    ensures OccursAt(text, term, same, Marks(text, term, same, start)[k])
    decreases |text| - start
  {
    var idx := IndexOf(text, term, same, start);
    if k > 0 {
      MarksAreOccurrences(text, term, same, idx.value + |term|, k - 1);
    }
  }

  /** Every occurrence starts inside a mark: none starts in a plain piece. */
  lemma {:induction false} MarksCoverOccurrences(text: string, term: string, same: Same, start: nat, i: nat)
    returns (k: nat)
    requires term != "" && start <= i && OccursAt(text, term, same, i)
    ensures var marks := Marks(text, term, same, start); k < |marks| && marks[k] <= i < marks[k] + |term|
    decreases |text| - start
  {
    var idx := IndexOf(text, term, same, start);
    var next := idx.value + |term|;
    assert Marks(text, term, same, start) == [idx.value] + Marks(text, term, same, next);
    hide OccursAt;
    if i < next {
      k := 0;
    } else {
      k := MarksCoverOccurrences(text, term, same, next, i);
      k := k + 1;
    }
  }

  /** Non-overlapping occurrences from `start` on. */
  ghost predicate Disjoint(text: string, term: string, same: Same, places: seq<nat>, start: nat)
  {
    Fit(|text|, |term|, places, start) && forall k | 0 <= k < |places| :: OccursAt(text, term, same, places[k])
  }

  /** No choice of non-overlapping occurrences has more of them than there are marks. */
  lemma {:induction false} MarksAreMost(text: string, term: string, same: Same, start: nat, places: seq<nat>, from: nat)
    requires term != "" && start <= from && Disjoint(text, term, same, places, from)
    ensures |places| <= |Marks(text, term, same, start)|
    decreases |text| - start
  {
    if places != [] {
      DisjointTail(text, term, same, places, from);
      hide OccursAt, Disjoint;
      var idx := IndexOf(text, term, same, start);
      MarksAreMost(text, term, same, idx.value + |term|, places[1..], places[0] + |term|);
    }
  }

  lemma DisjointTail(text: string, term: string, same: Same, places: seq<nat>, from: nat)
    requires Disjoint(text, term, same, places, from) && places != []
    ensures OccursAt(text, term, same, places[0]) && from <= places[0]
    ensures Disjoint(text, term, same, places[1..], places[0] + |term|)
  {
    hide OccursAt;
    assert forall k | 0 <= k < |places[1..]| :: places[1..][k] == places[k + 1];
  }

  lemma PiecesUnfold(text: string, n: nat, marks: seq<nat>, start: nat)
    requires start <= |text| && Fit(|text|, n, marks, start) && marks != []
    ensures start <= marks[0] && marks[0] + n <= |text| && Fit(|text|, n, marks[1..], marks[0] + n)
    ensures Pieces(text, n, marks, start)
         == [Plain(text[start..marks[0]])] + ([Marked(text[marks[0]..marks[0] + n])] +
                                             Pieces(text, n, marks[1..], marks[0] + n))
  {
  }

  /** Plain and marked pieces take turns. */
  lemma {:induction false} PiecesTakeTurns(text: string, n: nat, marks: seq<nat>, start: nat, k: nat)
    requires start <= |text| && Fit(|text|, n, marks, start) && k <= |marks|
    ensures var pieces := Pieces(text, n, marks, start);
            |pieces| == 2 * |marks| + 1 && pieces[2 * k].Plain? && (k < |marks| ==> pieces[2 * k + 1].Marked?)
  {
    if marks != [] {
      hide Pieces, Fit;
      PiecesUnfold(text, n, marks, start);
      PiecesTakeTurns(text, n, marks[1..], marks[0] + n, if k == 0 then 0 else k - 1);
    }
  }

  /** And the k-th marked one lies at the k-th place. */
  lemma {:induction false} MarkLiesAt(text: string, n: nat, marks: seq<nat>, start: nat, k: nat)
    requires start <= |text| && Fit(|text|, n, marks, start) && k < |marks|
    requires |Pieces(text, n, marks, start)| == 2 * |marks| + 1
    ensures var pieces := Pieces(text, n, marks, start);
            start <= marks[k] && marks[k] + n <= |text| &&
            pieces[2 * k + 1] == Marked(text[marks[k]..marks[k] + n]) &&
            TextOf(pieces[..2 * k + 1]) == text[start..marks[k]]
  {
    hide Pieces, Fit, TextOf;
    PiecesUnfold(text, n, marks, start);
    PiecesTakeTurns(text, n, marks[1..], marks[0] + n, 0);
    var rest := Pieces(text, n, marks[1..], marks[0] + n);
    var p, q := Plain(text[start..marks[0]]), Marked(text[marks[0]..marks[0] + n]);
    if k == 0 {
      assert ([p] + ([q] + rest))[..1] == [p];
      OneText(p);
    } else {
      MarkLiesAt(text, n, marks[1..], marks[0] + n, k - 1);
      BehindTwo(p, q, rest, 2 * k - 1);
      assert marks[1..][k - 1] == marks[k];
      Joined(text, start, marks[0], marks[0] + n, marks[k]);
    }
  }

  lemma BehindTwo(p: Piece, q: Piece, rest: seq<Piece>, j: nat)
    requires j < |rest|
    ensures var pieces := [p] + ([q] + rest);
            pieces[j + 2] == rest[j] && TextOf(pieces[..j + 2]) == p.text + (q.text + TextOf(rest[..j]))
  {
    hide TextOf;
    var pieces := [p] + ([q] + rest);
    assert pieces[..j + 2] == [p] + ([q] + rest[..j]);
    TextOfMore(p, [q] + rest[..j]);
    TextOfMore(q, rest[..j]);
  }

  lemma Joined(text: string, a: nat, b: nat, c: nat, d: nat)
    requires a <= b <= c <= d <= |text|
    ensures text[a..b] + (text[b..c] + text[c..d]) == text[a..d]
  {
  }

  lemma TextOfMore(p: Piece, rest: seq<Piece>)
    ensures TextOf([p] + rest) == p.text + TextOf(rest)
  {
    assert ([p] + rest)[1..] == rest;
  }

  lemma OneText(p: Piece)
    ensures TextOf([p]) == p.text
  {
    assert [p][1..] == [];
  }

  /** A marked piece at place i of the text. */
  ghost predicate MarkedAt(pieces: seq<Piece>, j: nat, i: nat)
  {
    j < |pieces| && pieces[j].Marked? && |TextOf(pieces[..j])| == i
  }

  /** The first pieces, and the rest of them. */
  lemma NextPieces(text: string, term: string, same: Same, start: nat)
    requires term != "" && start <= |text|
    ensures Fit(|text|, |term|, Marks(text, term, same, start), start)
    ensures var idx := IndexOf(text, term, same, start);
            var pieces := Pieces(text, |term|, Marks(text, term, same, start), start);
            if idx.None? then pieces == [Plain(text[start..])]
            else
              var i, next := idx.value, idx.value + |term|;
              start <= i && next <= |text| && Fit(|text|, |term|, Marks(text, term, same, next), next) &&
              pieces == [Plain(text[start..i]), Marked(text[i..next])] +
                        Pieces(text, |term|, Marks(text, term, same, next), next)
  {
    hide OccursAt;
    MarksFit(text, term, same, start);
    var idx := IndexOf(text, term, same, start);
    if idx.Some? {
      hide Pieces;
      assert Marks(text, term, same, start)[1..] == Marks(text, term, same, idx.value + |term|);
      PiecesUnfold(text, |term|, Marks(text, term, same, start), start);
    }
  }

  /** What the pieces must be. */
  ghost function Wanted(text: string, term: string, same: Same, start: nat): seq<Piece>
    requires term != "" && start <= |text|
  {
    MarksFit(text, term, same, start);
    Pieces(text, |term|, Marks(text, term, same, start), start)
  }

  lemma NextWanted(text: string, term: string, same: Same, start: nat)
    requires term != "" && start <= |text|
    ensures var idx := IndexOf(text, term, same, start);
            if idx.None? then Wanted(text, term, same, start) == [Plain(text[start..])]
            else
              var i, next := idx.value, idx.value + |term|;
              start <= i && next <= |text| &&
              Wanted(text, term, same, start)
              == [Plain(text[start..i]), Marked(text[i..next])] + Wanted(text, term, same, next)
  {
    NextPieces(text, term, same, start);
  }

  /**
   Plain and marked pieces take turns; a marked piece matches the term, character by character; and every
   occurrence of the term starts inside a marked piece.
   */
  ghost predicate WellMarked(pieces: seq<Piece>, text: string, term: string, same: Same)
  {
    |pieces| % 2 == 1 &&
    (forall j | 0 <= j < |pieces| :: pieces[j].Marked? <==> j % 2 == 1) &&
    (forall j | 0 <= j < |pieces| && pieces[j].Marked? ::
       |pieces[j].text| == |term| && forall k | 0 <= k < |term| :: same(term[k], pieces[j].text[k])) &&
    (forall i: nat | OccursAt(text, term, same, i) ::
       exists j: nat, m: nat :: MarkedAt(pieces, j, m) && m <= i < m + |term|)
  }

  lemma WantedMark(text: string, term: string, same: Same, k: nat)
    requires term != "" && k < |Marks(text, term, same, 0)|
    ensures var i, pieces := Marks(text, term, same, 0)[k], Wanted(text, term, same, 0);
            |pieces| == 2 * |Marks(text, term, same, 0)| + 1 && MarkedAt(pieces, 2 * k + 1, i) &&
            |pieces[2 * k + 1].text| == |term| &&
            forall c | 0 <= c < |term| :: same(term[c], pieces[2 * k + 1].text[c])
  {
    MarksFit(text, term, same, 0);
    var marks := Marks(text, term, same, 0);
    MarksAreOccurrences(text, term, same, 0, k);
    hide Pieces, Marks, OccursAt, Fit, TextOf;
    PiecesTakeTurns(text, |term|, marks, 0, k);
    MarkLiesAt(text, |term|, marks, 0, k);
    MarkMatches(text, term, same, marks[k]);
  }

  lemma WantedTakesTurns(text: string, term: string, same: Same)
    requires term != ""
    ensures var pieces := Wanted(text, term, same, 0);
            |pieces| == 2 * |Marks(text, term, same, 0)| + 1 &&
            forall j | 0 <= j < |pieces| :: pieces[j].Marked? <==> j % 2 == 1
  {
    MarksFit(text, term, same, 0);
    var marks, pieces := Marks(text, term, same, 0), Wanted(text, term, same, 0);
    hide Pieces, Marks, OccursAt, Fit;
    PiecesTakeTurns(text, |term|, marks, 0, 0);
    forall j | 0 <= j < |pieces|
      ensures pieces[j].Marked? <==> j % 2 == 1
    {
      PiecesTakeTurns(text, |term|, marks, 0, j / 2);
    }
  }

  lemma {:induction false} WantedIsWellMarked(text: string, term: string, same: Same)
    requires term != ""
    ensures WellMarked(Wanted(text, term, same, 0), text, term, same)
  {
    var pieces := Wanted(text, term, same, 0);
    hide Wanted, Marks, OccursAt, MarkedAt;
    WantedTakesTurns(text, term, same);
    forall j | 0 <= j < |pieces| && pieces[j].Marked?
      ensures |pieces[j].text| == |term| && forall k | 0 <= k < |term| :: same(term[k], pieces[j].text[k])
    {
      WantedMark(text, term, same, j / 2);
    }
    forall i: nat | OccursAt(text, term, same, i)
      ensures exists j: nat, m: nat :: MarkedAt(pieces, j, m) && m <= i < m + |term|
    {
      var k := MarksCoverOccurrences(text, term, same, 0, i);
      WantedMark(text, term, same, k);
    }
  }

  lemma MarkMatches(text: string, term: string, same: Same, i: nat)
    requires OccursAt(text, term, same, i)
    ensures i + |term| <= |text| && forall k | 0 <= k < |term| :: same(term[k], text[i..i + |term|][k])
  {
  }

  /** The loop of highlightText, for a nonempty term. */
  method CutPieces(text: string, term: string, same: Same) returns (pieces: seq<Piece>)
    requires term != ""
    ensures pieces == Wanted(text, term, same, 0)
  {
    hide Wanted, OccursAt;
    var start := 0;
    pieces := [];
    while true
      invariant start <= |text|
      invariant Wanted(text, term, same, 0) == pieces + Wanted(text, term, same, start)
      decreases |text| - start
    {
      NextWanted(text, term, same, start);
      var idx := IndexOf(text, term, same, start);
      if idx.None? {
        pieces := pieces + [Plain(text[start..])];
        break;
      }
      ghost var before := pieces;
      pieces := pieces + [Plain(text[start..idx.value])] + [Marked(text[idx.value..idx.value + |term|])];
      assert pieces == before + [Plain(text[start..idx.value]), Marked(text[idx.value..idx.value + |term|])];
      start := idx.value + |term|;
    }
  }

  /** highlightText; a null or empty term leaves the text in one plain piece. */
  method HighlightText(text: string, term: Option<string>, same: Same) returns (pieces: seq<Piece>)
    ensures pieces == if term == None || term == Some("") then [Plain(text)] else Wanted(text, term.value, same, 0)
    ensures TextOf(pieces) == text
    ensures term == None || term == Some("") ==> pieces == [Plain(text)]
    ensures term != None && term != Some("") ==> WellMarked(pieces, text, term.value, same)
  {
    if term.None? || term.value == "" {
      assert TextOf([Plain(text)][1..]) == "";
      return [Plain(text)];
    }
    pieces := CutPieces(text, term.value, same);
    MarksFit(text, term.value, same, 0);
    PiecesAreText(text, |term.value|, Marks(text, term.value, same, 0), 0);
    assert text[0..] == text;
    WantedIsWellMarked(text, term.value, same);
  }
}
