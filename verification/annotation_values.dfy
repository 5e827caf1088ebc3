/** The values of a pod annotation: splitting at commas, trimming, and normalising device types. */
module AnnotationValues {
  import opened DeviceConfigs

  predicate IsSpace(c: char) {
    || c == ' ' || c == '\t' || c == '\n' || c == '\r'
    || c as int == 11 || c as int == 12 || c as int == 0x85 || c as int == 0xa0
  }

  function TrimLeft(s: string): string {
    if s != [] && IsSpace(s[0]) then TrimLeft(s[1..]) else s
  }

  function TrimSpace(s: string): string
    decreases |s|
  {
    if s != [] && IsSpace(s[|s| - 1]) then TrimSpace(s[..|s| - 1]) else TrimLeft(s)
  }

  function Split(s: string): (r: seq<string>)
    ensures r != []
  {
    if s == [] then [[]]
    else
      var rest := Split(s[1..]);
      if s[0] == ',' then [[]] + rest else [[s[0]] + rest[0]] + rest[1..]
  }

  /** The trimmed nonempty values of a comma-separated list. */
  function Items(pieces: seq<string>): (r: seq<string>)
    ensures forall x | x in r :: x != []
  {
    if pieces == [] then []
    else
      var n := |pieces| - 1;
      var v := TrimSpace(pieces[n]);
      if v != [] then Items(pieces[..n]) + [v] else Items(pieces[..n])
  }

  function ValuesOf(raw: string): seq<string> {
    Items(Split(raw))
  }

  /** typeNamePart: lower-cased, spaces to underscores, parentheses dropped. */
  function NamePart(v: string): string {
    if v == [] then []
    else
      var before := NamePart(v[..|v| - 1]);
      var c := v[|v| - 1];
      if c == '(' || c == ')' then before
      else before + [if c == ' ' then '_' else ToLower([c])[0]]
  }

  function Parts(values: seq<string>): (r: seq<string>)
    ensures |r| == |values|
  {
    seq(|values|, i requires 0 <= i < |values| => NamePart(values[i]))
  }

  /******* What the values of an annotation are *******/

  lemma SpaceIff(c: char)
    ensures IsSpace(c) <==> 9 <= c as int <= 13 || c as int in [0x20, 0x85, 0xa0]
  {
  }

  /** The piece of a list from i up to j lies between two commas, the ends of the list counting as such. */
  predicate PieceAt(raw: string, i: nat, j: nat) {
    && i <= j <= |raw|
    && (i == 0 || raw[i - 1] == ',') && (j == |raw| || raw[j] == ',')
    && forall k | i <= k < j :: raw[k] != ','
  }

  /** Only white space is outside of p and q, and none at them. */
  predicate TrimmedAt(piece: string, p: nat, q: nat) {
    && p < q <= |piece| && !IsSpace(piece[p]) && !IsSpace(piece[q - 1])
    && forall k | 0 <= k < |piece| && (k < p || q <= k) :: IsSpace(piece[k])
  }

  ghost predicate IsTrimmed(piece: string, v: string) {
    exists p: nat, q: nat :: TrimmedAt(piece, p, q) && v == piece[p..q]
  }

  /** v is what is left of a piece of the list that is not all white space. */
  ghost predicate IsValue(raw: string, v: string) {
    exists i: nat, j: nat :: PieceAt(raw, i, j) && IsTrimmed(raw[i..j], v)
  }

  ghost predicate IsPiece(s: string, x: string, from: nat) {
    exists i: nat, j: nat :: from <= i && PieceAt(s, i, j) && x == s[i..j]
  }

  lemma PieceTail(s: string, i: nat, j: nat)
    requires s != [] && (i > 0 || s[0] == ',')
    ensures PieceAt(s[1..], i, j) <==> PieceAt(s, i + 1, j + 1)
    ensures PieceAt(s[1..], i, j) ==> s[1..][i..j] == s[i + 1..j + 1]
  {
    if PieceAt(s, i + 1, j + 1) {
      forall k | i <= k < j ensures s[1..][k] != ',' { assert s[1..][k] == s[k + 1]; }
    }
  }

  lemma PiecesTail(s: string, x: string, from: nat)
    requires s != [] && (from > 0 || s[0] == ',')
    ensures IsPiece(s[1..], x, from) <==> IsPiece(s, x, from + 1)
  {
    if IsPiece(s[1..], x, from) {
      var i: nat, j: nat :| from <= i && PieceAt(s[1..], i, j) && x == s[1..][i..j];
      PieceTail(s, i, j);
      assert PieceAt(s, i + 1, j + 1);
    }
    if IsPiece(s, x, from + 1) {
      var i: nat, j: nat :| from + 1 <= i && PieceAt(s, i, j) && x == s[i..j];
      PieceTail(s, i - 1, j - 1);
      assert PieceAt(s[1..], i - 1, j - 1);
    }
  }

  /** Splitting gives the first piece first, and then the pieces behind a comma. */
  lemma {:induction false} SplitMeaning(s: string)
    ensures exists j: nat :: PieceAt(s, 0, j) && Split(s)[0] == s[..j]
    ensures forall x :: x in Split(s)[1..] <==> IsPiece(s, x, 1)
  {
    if s == [] {
      assert PieceAt(s, 0, 0);
    } else {
      var t := s[1..];
      var rest := Split(t);
      SplitMeaning(t);
      var j: nat :| PieceAt(t, 0, j) && rest[0] == t[..j];
      assert rest == [rest[0]] + rest[1..];
      if s[0] == ',' {
        assert PieceAt(s, 0, 0) && Split(s)[1..] == rest;
        forall x ensures x in rest <==> IsPiece(s, x, 1) {
          PiecesTail(s, x, 0);
          FirstPiece(t, j, x);
        }
      } else {
        assert forall k | 0 <= k < j :: t[k] == s[k + 1];
        assert PieceAt(s, 0, j + 1) && s[..j + 1] == [s[0]] + t[..j];
        forall x ensures x in rest[1..] <==> IsPiece(s, x, 1) {
          PiecesTail(s, x, 1);
          NoSecondPiece(s, x);
        }
      }
    }
  }

  lemma FirstPiece(t: string, j: nat, x: string)
    requires PieceAt(t, 0, j)
    ensures IsPiece(t, x, 0) <==> x == t[..j] || IsPiece(t, x, 1)
  {
    if IsPiece(t, x, 0) {
      var i: nat, k: nat :| PieceAt(t, i, k) && x == t[i..k];
      if i == 0 { assert j == k; }
    }
    assert t[0..j] == t[..j];
  }

  lemma NoSecondPiece(s: string, x: string)
    requires s != [] && s[0] != ','
    ensures IsPiece(s, x, 1) <==> IsPiece(s, x, 2)
  {
    if IsPiece(s, x, 1) {
      var i: nat, k: nat :| 1 <= i && PieceAt(s, i, k) && x == s[i..k];
      assert i != 1;
    }
  }

  lemma PiecesAre(s: string, x: string)
    ensures x in Split(s) <==> IsPiece(s, x, 0)
  {
    SplitMeaning(s);
    var j: nat :| PieceAt(s, 0, j) && Split(s)[0] == s[..j];
    FirstPiece(s, j, x);
    assert Split(s) == [Split(s)[0]] + Split(s)[1..];
  }

  lemma {:induction false} TrimLeftMeaning(s: string)
    requires s != [] && !IsSpace(s[|s| - 1])
    ensures exists p: nat :: TrimmedAt(s, p, |s|) && TrimLeft(s) == s[p..]
  {
    if IsSpace(s[0]) {
      var t := s[1..];
      assert t[|t| - 1] == s[|s| - 1];
      TrimLeftMeaning(t);
      var p: nat :| TrimmedAt(t, p, |t|) && TrimLeft(t) == t[p..];
      TrimmedTail(s, p);
      assert t[p..] == s[p + 1..];
    } else {
      assert TrimmedAt(s, 0, |s|) && s[0..] == s;
    }
  }

  lemma TrimmedTail(s: string, p: nat)
    requires s != [] && IsSpace(s[0]) && TrimmedAt(s[1..], p, |s| - 1)
    ensures TrimmedAt(s, p + 1, |s|)
  {
    hide IsSpace;
    forall k | 1 <= k < p + 1 ensures IsSpace(s[k]) { assert s[k] == s[1..][k - 1]; }
  }

  /** A trimmed piece is nonempty exactly if some part of the piece is left, and then it is that part. */
  lemma {:induction false} TrimMeaning(s: string, v: string)
    ensures v != [] && v == TrimSpace(s) <==> IsTrimmed(s, v)
    decreases |s|
  {
    if s == [] {
    } else if IsSpace(s[|s| - 1]) {
      var n := |s| - 1;
      TrimMeaning(s[..n], v);
      forall p: nat, q: nat ensures TrimmedAt(s, p, q) <==> TrimmedAt(s[..n], p, q) {
        assert forall k | 0 <= k < n :: s[k] == s[..n][k];
      }
      assert forall p: nat, q: nat | TrimmedAt(s[..n], p, q) :: s[..n][p..q] == s[p..q];
    } else {
      TrimLeftMeaning(s);
      var p: nat :| TrimmedAt(s, p, |s|) && TrimLeft(s) == s[p..];
      assert s[p..] == s[p..|s|];
      forall i: nat, j: nat | TrimmedAt(s, i, j) ensures i == p && j == |s| {
      }
    }
  }

  lemma {:induction false} ItemsMeaning(pieces: seq<string>, v: string)
    ensures v in Items(pieces) <==> exists x | x in pieces :: v != [] && v == TrimSpace(x)
  {
    hide TrimSpace;
    if pieces != [] {
      var n := |pieces| - 1;
      ItemsMeaning(pieces[..n], v);
      assert v in Items(pieces) <==> v in Items(pieces[..n]) || (v != [] && v == TrimSpace(pieces[n]));
      if x :| x in pieces && v != [] && v == TrimSpace(x) {
        assert x in pieces[..n] || x == pieces[n];
      }
      assert pieces[n] in pieces && forall x | x in pieces[..n] :: x in pieces;
    }
  }

  /** The values are the space-trimmed nonempty pieces between commas. */
  lemma ValuesOfIff(raw: string, v: string)
    ensures v in ValuesOf(raw) <==> IsValue(raw, v)
  {
    hide TrimSpace, Split, Items, IsTrimmed;
    ItemsMeaning(Split(raw), v);
    forall x ensures x in Split(raw) <==> IsPiece(raw, x, 0) { PiecesAre(raw, x); }
    forall x ensures v != [] && v == TrimSpace(x) <==> IsTrimmed(x, v) { TrimMeaning(x, v); }
    if v in ValuesOf(raw) {
      var x :| x in Split(raw) && v != [] && v == TrimSpace(x);
      var i: nat, j: nat :| PieceAt(raw, i, j) && x == raw[i..j];
      assert IsTrimmed(raw[i..j], v);
    }
    if IsValue(raw, v) {
      var i: nat, j: nat :| PieceAt(raw, i, j) && IsTrimmed(raw[i..j], v);
      assert IsPiece(raw, raw[i..j], 0);
    }
  }

  lemma UsableIff(raw: string)
    ensures ValuesOf(raw) != [] <==> exists v :: IsValue(raw, v)
  {
    hide ValuesOf, IsValue;
    forall v ensures v in ValuesOf(raw) <==> IsValue(raw, v) { ValuesOfIff(raw, v); }
    assert ValuesOf(raw) != [] ==> ValuesOf(raw)[0] in ValuesOf(raw);
  }

  /** Normalising works character by character: parentheses go, a space becomes "_", capitals become small. */
  lemma {:induction false} NamePartJoins(u: string, v: string)
    ensures NamePart(u + v) == NamePart(u) + NamePart(v)
  {
    if v == [] {
      assert u + v == u;
    } else {
      var n := |v| - 1;
      NamePartJoins(u, v[..n]);
      assert (u + v)[..|u| + n] == u + v[..n];
    }
  }

  lemma NamePartOfChar(c: char)
    ensures NamePart([c]) ==
            if c == '(' || c == ')' then []
            else if c == ' ' then ['_']
            else if c in "ABCDEFGHIJKLMNOPQRSTUVWXYZ" then [(c as int + 32) as char] else [c]
  {
    assert [c][..0] == [];
  }

  /** A value made of parentheses only. */
  predicate OnlyParentheses(v: string) {
    forall i | 0 <= i < |v| :: v[i] == '(' || v[i] == ')'
  }

  lemma {:induction false} NamePartEmptyIff(v: string)
    ensures NamePart(v) == [] <==> OnlyParentheses(v)
  {
    if v != [] {
      NamePartEmptyIff(v[..|v| - 1]);
      assert forall i | 0 <= i < |v| - 1 :: v[i] == v[..|v| - 1][i];
    }
  }

  lemma ParenthesesKept()
    ensures ValuesOf("()") == ["()"]
  {
    ParenthesesSplit();
    assert TrimSpace("()") == "()";
    assert ["()"][..0] == [] && Items([]) == [];
    assert Items(["()"]) == ["()"];
  }

  lemma ParenthesesSplit()
    ensures Split("()") == ["()"]
  {
    assert ")"[1..] == [] && "()"[1..] == ")";
    var one, two := Split(")"), Split("()");
    assert one[0] == [')'] + [] == ")" && one == [one[0]];
    assert two[0] == ['('] + one[0] == "()" && two == [two[0]];
  }
}
