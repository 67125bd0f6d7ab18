/**
  A sheet expression names a spreadsheet and, optionally, the range to read
  from it: `<sheetId>` or `<sheetId>#<range>`. The provider splits it with
  Java's String.split, which drops trailing empty pieces, so the pieces are
  modelled exactly as that call produces them.
 */
module SheetExpression {
  import opened Wrappers
  import opened SheetsErrors

  /** Separates the sheet id from the range. */
  const Separator: char := '#'

  /** The range read when the expression names none. */
  const DefaultRange: string := "$1:$10000"

  /** The two arguments of a values().get(...) call on the Sheets API. */
  datatype Location = Location(sheetId: string, range: string)

  /** Every character of s is c (the empty string included). */
  predicate AllAre(s: string, c: char)
  {
    forall i :: 0 <= i < |s| ==> s[i] == c
  }

  /** The text of s before its first c; all of s when it holds no c. */
  function Before(s: string, c: char): (r: string)
    ensures r <= s && c !in r
    ensures |r| < |s| ==> s[|r|] == c
  {
    if s == [] || s[0] == c then [] else [s[0]] + Before(s[1..], c)
  }

  /** The text of s after its first c. */
  function After(s: string, c: char): (r: string)
    requires c in s
    ensures s == Before(s, c) + [c] + r
  {
    var b := Before(s, c);
    assert |b| == |s| ==> b == s;
    assert s == b + [c] + s[|b| + 1..];
    s[|b| + 1..]
  }

  /** Every piece of s between occurrences of c, empty pieces included. */
  function SplitAll(s: string, c: char): (pieces: seq<string>)
    ensures |pieces| >= 1
    ensures forall i :: 0 <= i < |pieces| ==> c !in pieces[i]
  {
    if s == [] then [""]
    else
      var rest := SplitAll(s[1..], c);
      if s[0] == c then [""] + rest
      else [[s[0]] + rest[0]] + rest[1..]
  }

  /** The pieces joined with c between neighbours: the inverse of SplitAll. */
  function Join(pieces: seq<string>, c: char): string
  {
    if |pieces| == 0 then ""
    else if |pieces| == 1 then pieces[0]
    else pieces[0] + [c] + Join(pieces[1..], c)
  }

  /** The longest prefix of pieces that does not end with an empty piece. */
  function DropTrailingEmpty(pieces: seq<string>): (r: seq<string>)
    ensures r <= pieces
    ensures r == [] || r[|r| - 1] != ""
    ensures forall i :: |r| <= i < |pieces| ==> pieces[i] == ""
  {
    if pieces != [] && pieces[|pieces| - 1] == "" then DropTrailingEmpty(pieces[..|pieces| - 1])
    else pieces
  }

  /**
    `s.split(c)` in Java with no limit: the string itself when c does not
    occur, otherwise every piece with the trailing empty ones removed.
   */
  function JavaSplit(s: string, c: char): (r: seq<string>)
    ensures c !in s ==> r == [s]
    ensures r <= SplitAll(s, c)
    ensures forall i :: |r| <= i < |SplitAll(s, c)| ==> SplitAll(s, c)[i] == ""
    ensures c in s ==> r == [] || r[|r| - 1] != ""
  {
    if c !in s then SplitAllHead(s, c); [s] else DropTrailingEmpty(SplitAll(s, c))
  }

  /**
    The sheet id and range the provider reads for an expression: piece 0 of
    the split, and piece 1 when there is one, else the default range. An
    expression made only of separators splits into nothing, and reading
    piece 0 of it fails.
   */
  function ParseSheetExpression(expr: string): (r: Result<Location, LoadError>)
    ensures Separator !in expr ==> r == Success(Location(expr, DefaultRange))
    ensures Separator in expr && !AllAre(After(expr, Separator), Separator) ==>
      r == Success(Location(Before(expr, Separator), Before(After(expr, Separator), Separator)))
    ensures Separator in expr && AllAre(After(expr, Separator), Separator) ==>
      r == if Before(expr, Separator) == "" then Failure(IndexOutOfBounds)
           else Success(Location(Before(expr, Separator), DefaultRange))
  {
    JavaSplitShape(expr, Separator);
    ParseOptions(JavaSplit(expr, Separator))
  }

  /** Reads the sheet id and the range out of the split pieces. */
  function ParseOptions(options: seq<string>): Result<Location, LoadError>
  {
    if |options| == 0 then Failure(IndexOutOfBounds)
    else Success(Location(options[0], if |options| > 1 then options[1] else DefaultRange))
  }

  /** The expression that names a location explicitly. */
  function Format(loc: Location): string
  {
    loc.sheetId + [Separator] + loc.range
  }

  /** A location that an expression can name: no separator inside, and a range. */
  predicate Expressible(loc: Location)
  {
    Separator !in loc.sheetId && Separator !in loc.range && loc.range != ""
  }

  /** Parsing an expression written for a location gives that location back. */
  lemma ParseFormat(loc: Location)
    requires Expressible(loc)
    ensures ParseSheetExpression(Format(loc)) == Success(loc)
  {
    var s := Format(loc);
    BeforeConcat(loc.sheetId, loc.range, Separator);
    assert Before(s, Separator) == loc.sheetId;
    assert After(s, Separator) == loc.range;
    BeforeAbsent(loc.range, Separator);
    assert loc.range[0] != Separator;
  }

  /** Before stops at the first c. */
  lemma {:induction false} BeforeConcat(a: string, b: string, c: char)
    requires c !in a
    ensures Before(a + [c] + b, c) == a
  {
    if a != [] {
      assert (a + [c] + b)[1..] == a[1..] + [c] + b;
      BeforeConcat(a[1..], b, c);
    }
  }

  /** Without a c, Before takes the whole string. */
  lemma BeforeAbsent(s: string, c: char)
    requires c !in s
    ensures Before(s, c) == s
  {
    var b := Before(s, c);
    assert |b| == |s|;
  }

  /** The first piece is the text before the first c, the other pieces split what follows it. */
  lemma {:induction false} SplitAllHead(s: string, c: char)
    ensures SplitAll(s, c)[0] == Before(s, c)
    ensures c in s ==> SplitAll(s, c)[1..] == SplitAll(After(s, c), c)
    ensures c !in s ==> SplitAll(s, c) == [s]
  {
    if s != [] {
      SplitAllHead(s[1..], c);
      assert c in s <==> s[0] == c || c in s[1..] by {
        assert s == [s[0]] + s[1..];
      }
      if s[0] != c && c in s {
        assert After(s, c) == After(s[1..], c) by {
          var b := Before(s[1..], c);
          assert s == [s[0]] + (b + [c] + After(s[1..], c));
          assert s == ([s[0]] + b) + [c] + After(s[1..], c);
        }
      }
      if s[0] != c && c !in s {
        assert [s[0]] + s[1..] == s;
      }
    }
  }

  /** Every piece is empty exactly when s holds nothing but separators. */
  lemma {:induction false} PiecesEmptyIffAllAre(s: string, c: char)
    ensures (forall j :: 0 <= j < |SplitAll(s, c)| ==> SplitAll(s, c)[j] == "") <==> AllAre(s, c)
  {
    if s != [] {
      PiecesEmptyIffAllAre(s[1..], c);
      var rest := SplitAll(s[1..], c);
      if s[0] == c {
        assert SplitAll(s, c) == [""] + rest;
        assert AllAre(s, c) <==> AllAre(s[1..], c) by {
          if AllAre(s[1..], c) {
            forall i | 0 <= i < |s| ensures s[i] == c {
              if i > 0 { assert s[i] == s[1..][i - 1]; }
            }
          }
          if AllAre(s, c) {
            forall i | 0 <= i < |s[1..]| ensures s[1..][i] == c {
              assert s[1..][i] == s[i + 1];
            }
          }
        }
        if AllAre(s[1..], c) {
          forall j | 0 <= j < |SplitAll(s, c)| ensures SplitAll(s, c)[j] == "" {
            if j > 0 { assert SplitAll(s, c)[j] == rest[j - 1]; }
          }
        } else {
          var j :| 0 <= j < |rest| && rest[j] != "";
          assert SplitAll(s, c)[j + 1] == rest[j];
        }
      } else {
        assert SplitAll(s, c)[0] == [s[0]] + rest[0];
        assert !AllAre(s, c) by { assert s[0] != c; }
      }
    }
  }

  /** The shape of Java's split of an expression that holds a c. */
  lemma JavaSplitShape(s: string, c: char)
    ensures c in s ==> var q := JavaSplit(s, c);
      && (!AllAre(After(s, c), c) ==> |q| >= 2 && q[0] == Before(s, c) && q[1] == Before(After(s, c), c))
      && (AllAre(After(s, c), c) && Before(s, c) != "" ==> q == [Before(s, c)])
      && (AllAre(After(s, c), c) && Before(s, c) == "" ==> q == [])
  {
    if c in s {
      if AllAre(After(s, c), c) {
        JavaSplitOnePiece(s, c);
      } else {
        JavaSplitTwoPieces(s, c);
      }
    }
  }

  /** The pieces of s are the text before its first c, then the pieces of what follows. */
  lemma SplitAllCons(s: string, c: char)
    requires c in s
    ensures SplitAll(s, c) == [Before(s, c)] + SplitAll(After(s, c), c)
  {
    SplitAllHead(s, c);
    var p := SplitAll(s, c);
    assert p == [p[0]] + p[1..];
  }

  /** A non-separator after the first c leaves at least two pieces: the id and the range. */
  lemma JavaSplitTwoPieces(s: string, c: char)
    requires c in s && !AllAre(After(s, c), c)
    ensures |JavaSplit(s, c)| >= 2
    ensures JavaSplit(s, c)[0] == Before(s, c) && JavaSplit(s, c)[1] == Before(After(s, c), c)
  {
    var a := After(s, c);
    var tail := SplitAll(a, c);
    var p := SplitAll(s, c);
    SplitAllCons(s, c);
    SplitAllHead(a, c);
    PiecesEmptyIffAllAre(a, c);
    var j :| 0 <= j < |tail| && tail[j] != "";
    assert p[j + 1] != "";
    var q := DropTrailingEmpty(p);
    assert |q| >= j + 2;
    assert q[0] == p[0] && q[1] == p[1];
  }

  /** Only separators after the first c leave the id alone, or nothing when the id is empty. */
  lemma JavaSplitOnePiece(s: string, c: char)
    requires c in s && AllAre(After(s, c), c)
    ensures Before(s, c) != "" ==> JavaSplit(s, c) == [Before(s, c)]
    ensures Before(s, c) == "" ==> JavaSplit(s, c) == []
  {
    var a := After(s, c);
    var tail := SplitAll(a, c);
    var p := SplitAll(s, c);
    SplitAllCons(s, c);
    PiecesEmptyIffAllAre(a, c);
    assert forall j :: 1 <= j < |p| ==> p[j] == "" by {
      forall j | 1 <= j < |p| ensures p[j] == "" {
        assert p[j] == tail[j - 1];
      }
    }
    if Before(s, c) != "" {
      DropTrailingEmptyAt(p, 0);
    } else {
      DropTrailingEmptyAll(p);
    }
  }

  /** Dropping trailing empty pieces keeps everything up to the last non-empty one. */
  lemma {:induction false} DropTrailingEmptyAt(pieces: seq<string>, k: nat)
    requires k < |pieces| && pieces[k] != ""
    requires forall j :: k < j < |pieces| ==> pieces[j] == ""
    ensures DropTrailingEmpty(pieces) == pieces[..k + 1]
  {
    if |pieces| > k + 1 {
      var shorter := pieces[..|pieces| - 1];
      DropTrailingEmptyAt(shorter, k);
      assert shorter[..k + 1] == pieces[..k + 1];
    }
  }

  /** Pieces that are all empty are all dropped. */
  lemma {:induction false} DropTrailingEmptyAll(pieces: seq<string>)
    requires forall j :: 0 <= j < |pieces| ==> pieces[j] == ""
    ensures DropTrailingEmpty(pieces) == []
  {
    if pieces != [] {
      DropTrailingEmptyAll(pieces[..|pieces| - 1]);
    }
  }

  /** Joining the pieces of a split gives the string back. */
  lemma {:induction false} JoinSplitAll(s: string, c: char)
    ensures Join(SplitAll(s, c), c) == s
  {
    if s != [] {
      JoinSplitAll(s[1..], c);
      var rest := SplitAll(s[1..], c);
      if s[0] == c {
        assert SplitAll(s, c) == [""] + rest;
        assert ([""] + rest)[1..] == rest;
        assert s == [c] + s[1..];
      } else {
        var pieces := SplitAll(s, c);
        assert pieces == [[s[0]] + rest[0]] + rest[1..];
        if |rest| == 1 {
          assert s == [s[0]] + s[1..];
        } else {
          assert pieces[1..] == rest[1..];
          assert Join(rest, c) == rest[0] + [c] + Join(rest[1..], c);
          assert s == [s[0]] + s[1..];
        }
      }
    }
  }

  /** Splitting joined pieces that hold no c gives the pieces back. */
  lemma {:induction false} SplitAllJoin(pieces: seq<string>, c: char)
    requires |pieces| >= 1
    requires forall i :: 0 <= i < |pieces| ==> c !in pieces[i]
    ensures SplitAll(Join(pieces, c), c) == pieces
  {
    if |pieces| == 1 {
      SplitAllHead(pieces[0], c);
    } else {
      var s := Join(pieces, c);
      var rest := pieces[1..];
      SplitAllJoin(rest, c);
      assert s == pieces[0] + [c] + Join(rest, c);
      BeforeConcat(pieces[0], Join(rest, c), c);
      assert c in s by { assert s[|pieces[0]|] == c; }
      assert After(s, c) == Join(rest, c);
      SplitAllHead(s, c);
      var split := SplitAll(s, c);
      assert split == [split[0]] + split[1..];
      assert pieces == [pieces[0]] + rest;
    }
  }
}
