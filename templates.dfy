/**
 * What `derive_filename` produces, stated without `str.replace`.
 *
 * A net template is read as a sequence of pieces: literal characters and the
 * placeholders `[H]`, `[W]`, `[S]`, `[R]`, `[C]`. When no literal character is
 * a '[' and the scale label has none either, the five sequential replace-alls
 * of `derive_filename` amount to putting each placeholder's value in its place.
 */
module Templates {
  import opened Strings
  import Vai

  datatype Slot = H | W | S | R | C

  datatype Piece = Lit(c: char) | Hole(slot: Slot)

  function Token(x: Slot): (t: string)
    ensures |t| == 3 && t[0] == '[' && t[2] == ']' && t[1] != '['
  {
    match x
    case H => "[H]"
    case W => "[W]"
    case S => "[S]"
    case R => "[R]"
    case C => "[C]"
  }

  function PieceText(p: Piece): string {
    match p
    case Lit(c) => [c]
    case Hole(x) => Token(x)
  }

  /** The template text a sequence of pieces stands for. */
  function Text(ps: seq<Piece>): string {
    if ps == [] then "" else PieceText(ps[0]) + Text(ps[1..])
  }

  /** No literal character could start a placeholder. */
  predicate WellFormed(ps: seq<Piece>) {
    forall i :: 0 <= i < |ps| ==> (ps[i].Lit? ==> ps[i].c != '[')
  }

  /** The texts put in place of the five placeholders. */
  datatype Values = Values(height: string, width: string, scale: string, row: string, column: string)

  function ValueOf(x: Slot, v: Values): string {
    match x
    case H => v.height
    case W => v.width
    case S => v.scale
    case R => v.row
    case C => v.column
  }

  /** The template with every placeholder replaced by its value. */
  function Render(ps: seq<Piece>, v: Values): string {
    if ps == [] then ""
    else
      (match ps[0] case Lit(c) => [c] case Hole(x) => ValueOf(x, v)) + Render(ps[1..], v)
  }

  function Lits(s: string): (ps: seq<Piece>)
    ensures |ps| == |s| && forall i :: 0 <= i < |s| ==> ps[i] == Lit(s[i])
  {
    if s == "" then [] else [Lit(s[0])] + Lits(s[1..])
  }

  /** Every `x` placeholder replaced by the literal characters of `value`. */
  function Fill(ps: seq<Piece>, x: Slot, value: string): seq<Piece> {
    if ps == [] then []
    else (if ps[0] == Hole(x) then Lits(value) else [ps[0]]) + Fill(ps[1..], x, value)
  }

  lemma {:induction false} TextAppend(a: seq<Piece>, b: seq<Piece>)
    ensures Text(a + b) == Text(a) + Text(b)
    decreases |a|
  {
    if a == [] {
      assert a + b == b;
    } else {
      assert (a + b)[1..] == a[1..] + b;
      TextAppend(a[1..], b);
    }
  }

  lemma {:induction false} TextLits(s: string)
    ensures Text(Lits(s)) == s
    decreases |s|
  {
    if s != "" {
      assert Lits(s)[1..] == Lits(s[1..]);
      TextLits(s[1..]);
    }
  }

  lemma {:induction false} FillAppend(a: seq<Piece>, b: seq<Piece>, x: Slot, value: string)
    ensures Fill(a + b, x, value) == Fill(a, x, value) + Fill(b, x, value)
    decreases |a|
  {
    if a == [] {
      assert a + b == b;
    } else {
      assert (a + b)[0] == a[0];
      assert (a + b)[1..] == a[1..] + b;
      FillAppend(a[1..], b, x, value);
    }
  }

  lemma FillOne(p: Piece, x: Slot, value: string)
    ensures Fill([p], x, value) == if p == Hole(x) then Lits(value) else [p]
  {
    assert [p][1..] == [];
  }

  lemma {:induction false} FillLits(s: string, x: Slot, value: string)
    ensures Fill(Lits(s), x, value) == Lits(s)
    decreases |s|
  {
    if s != "" {
      assert Lits(s)[1..] == Lits(s[1..]);
      FillLits(s[1..], x, value);
    }
  }

  /** What filling does to one piece. */
  function FillHead(p: Piece, x: Slot, value: string): seq<Piece> {
    if p == Hole(x) then Lits(value) else [p]
  }

  lemma WellFormedAppend(a: seq<Piece>, b: seq<Piece>)
    requires WellFormed(a) && WellFormed(b)
    ensures WellFormed(a + b)
  {
    assert forall i :: |a| <= i < |a + b| ==> (a + b)[i] == b[i - |a|];
  }

  /** A literal character other than '[' is copied. */
  lemma ReplaceOneLit(c: char, t: string, x: Slot, value: string)
    requires c != '['
    ensures ReplaceAll([c] + t, Token(x), value) == [c] + ReplaceAll(t, Token(x), value)
  {
    ReplaceAllSkips([c], t, Token(x), value);
  }

  /** The placeholder being replaced becomes the value. */
  lemma ReplaceOneHit(t: string, x: Slot, value: string)
    requires '[' !in value
    ensures ReplaceAll(Token(x) + t, Token(x), value) == Text(Lits(value)) + ReplaceAll(t, Token(x), value)
  {
    ReplaceAllHit(t, Token(x), value);
    TextLits(value);
  }

  /** Distinct slots have distinct tokens. */
  lemma TokensDiffer(x: Slot, y: Slot)
    requires x != y
    ensures Token(x) != Token(y)
  {
    assert Token(x)[1] != Token(y)[1];
  }

  /** A three-character token other than the pattern, with no '[' after its first character, is copied. */
  lemma ReplaceSkipsToken(a: string, t: string, pat: string, rep: string)
    requires |a| == 3 && |pat| == 3 && a != pat && a[1] != pat[0] && a[2] != pat[0]
    ensures ReplaceAll(a + t, pat, rep) == a + ReplaceAll(t, pat, rep)
  {
    var u := a + t;
    assert ReplaceAll(u, pat, rep) == [u[0]] + ReplaceAll(u[1..], pat, rep) by {
      assert u[..3] == a;
    }
    assert u[1..] == a[1..] + t;
    assert pat[0] !in a[1..] by {
      assert a[1..] == [a[1], a[2]];
    }
    ReplaceAllSkips(a[1..], t, pat, rep);
    assert [a[0]] + a[1..] == a;
  }

  /** Another placeholder is copied. */
  lemma ReplaceOneMiss(y: Slot, t: string, x: Slot, value: string)
    requires y != x
    ensures ReplaceAll(Token(y) + t, Token(x), value) == Token(y) + ReplaceAll(t, Token(x), value)
  {
    TokensDiffer(y, x);
    ReplaceSkipsToken(Token(y), t, Token(x), value);
  }

  /** The replace-all scan over one piece's text, followed by any text `t`. */
  lemma ReplaceOnePiece(p: Piece, t: string, x: Slot, value: string)
    requires p != Lit('[') && '[' !in value
    ensures WellFormed(FillHead(p, x, value))
    ensures ReplaceAll(PieceText(p) + t, Token(x), value)
            == Text(FillHead(p, x, value)) + ReplaceAll(t, Token(x), value)
  {
    assert Text([p]) == PieceText(p) by {
      assert [p][1..] == [];
    }
    match p
    case Lit(c) => ReplaceOneLit(c, t, x, value);
    case Hole(y) =>
      if y == x { ReplaceOneHit(t, x, value); } else { ReplaceOneMiss(y, t, x, value); }
  }

  /**
   * One `str.replace(token, value)` on the template text is the template with that
   * placeholder filled, provided `value` has no '['.
   */
  lemma {:induction false} ReplaceFills(ps: seq<Piece>, x: Slot, value: string)
    requires WellFormed(ps) && '[' !in value
    ensures WellFormed(Fill(ps, x, value))
    ensures ReplaceAll(Text(ps), Token(x), value) == Text(Fill(ps, x, value))
    decreases |ps|
  {
    if ps != [] {
      var rest := ps[1..];
      var head := FillHead(ps[0], x, value);
      ReplaceFills(rest, x, value);
      ReplaceOnePiece(ps[0], Text(rest), x, value);
      assert Fill(ps, x, value) == head + Fill(rest, x, value);
      TextAppend(head, Fill(rest, x, value));
      WellFormedAppend(head, Fill(rest, x, value));
    }
  }

  /** All five placeholders filled, in `derive_filename`'s order. */
  function FillAll(ps: seq<Piece>, v: Values): seq<Piece> {
    Fill(Fill(Fill(Fill(Fill(ps, H, v.height), W, v.width), S, v.scale), R, v.row), C, v.column)
  }

  lemma FillAllAppend(a: seq<Piece>, b: seq<Piece>, v: Values)
    ensures FillAll(a + b, v) == FillAll(a, v) + FillAll(b, v)
  {
    FillAppend(a, b, H, v.height);
    var a1, b1 := Fill(a, H, v.height), Fill(b, H, v.height);
    FillAppend(a1, b1, W, v.width);
    var a2, b2 := Fill(a1, W, v.width), Fill(b1, W, v.width);
    FillAppend(a2, b2, S, v.scale);
    var a3, b3 := Fill(a2, S, v.scale), Fill(b2, S, v.scale);
    FillAppend(a3, b3, R, v.row);
    var a4, b4 := Fill(a3, R, v.row), Fill(b3, R, v.row);
    FillAppend(a4, b4, C, v.column);
  }

  /** The five fills of one piece: a literal stays, a placeholder becomes its value. */
  lemma FillAllOne(p: Piece, v: Values)
    ensures Text(FillAll([p], v)) == (match p case Lit(c) => [c] case Hole(x) => ValueOf(x, v))
  {
    FillOne(p, H, v.height);
    FillOne(p, W, v.width);
    FillOne(p, S, v.scale);
    FillOne(p, R, v.row);
    FillOne(p, C, v.column);
    match p
    case Lit(c) =>
      assert FillAll([p], v) == [p];
      assert [p][1..] == [];
    case Hole(x) =>
      var s := ValueOf(x, v);
      FillLits(s, H, v.height);
      FillLits(s, W, v.width);
      FillLits(s, S, v.scale);
      FillLits(s, R, v.row);
      FillLits(s, C, v.column);
      assert FillAll([p], v) == Lits(s);
      TextLits(s);
  }

  lemma {:induction false} FillAllRenders(ps: seq<Piece>, v: Values)
    ensures Text(FillAll(ps, v)) == Render(ps, v)
    decreases |ps|
  {
    if ps != [] {
      var p, rest := ps[0], ps[1..];
      assert ps == [p] + rest;
      FillAllRenders(rest, v);
      FillAllAppend([p], rest, v);
      TextAppend(FillAll([p], v), FillAll(rest, v));
      FillAllOne(p, v);
    }
  }

  lemma IntTextHasNoBracket(n: int)
    ensures '[' !in IntToString(n)
  {
  }

  /**
   * The name `derive_filename` gives a well-formed template: the record prefix, then
   * the template with height, width, scale, row and column put in place.
   */
  lemma DeriveFilenameRenders(id: string, version: string, ps: seq<Piece>, scale: string,
                              width: int, height: int, row: int, column: int)
    requires WellFormed(ps) && '[' !in scale
    ensures Vai.DeriveFilename(id, version, Text(ps), scale, width, height, row, column)
            == Vai.FilePrefix(id, version)
               + Render(ps, Values(IntToString(height), IntToString(width), scale,
                                   IntToString(row), IntToString(column)))
  {
    var v := Values(IntToString(height), IntToString(width), scale, IntToString(row), IntToString(column));
    IntTextHasNoBracket(height);
    IntTextHasNoBracket(width);
    IntTextHasNoBracket(row);
    IntTextHasNoBracket(column);
    var s4 := [("[C]", v.column)];
    var s3 := [("[R]", v.row)] + s4;
    var s2 := [("[S]", v.scale)] + s3;
    var s1 := [("[W]", v.width)] + s2;
    assert [("[H]", v.height)] + s1 == Vai.Substitutions(scale, width, height, row, column);
    var p1 := Fill(ps, H, v.height);
    ReplaceFills(ps, H, v.height);
    ReplaceInOrderStep(Text(ps), "[H]", v.height, s1);
    var p2 := Fill(p1, W, v.width);
    ReplaceFills(p1, W, v.width);
    ReplaceInOrderStep(Text(p1), "[W]", v.width, s2);
    var p3 := Fill(p2, S, v.scale);
    ReplaceFills(p2, S, v.scale);
    ReplaceInOrderStep(Text(p2), "[S]", v.scale, s3);
    var p4 := Fill(p3, R, v.row);
    ReplaceFills(p3, R, v.row);
    ReplaceInOrderStep(Text(p3), "[R]", v.row, s4);
    ReplaceFills(p4, C, v.column);
    ReplaceInOrderStep(Text(p4), "[C]", v.column, []);
    FillAllRenders(ps, v);
  }

  /** A template without placeholders is used verbatim. */
  lemma PlainTemplateVerbatim(id: string, version: string, net: string, scale: string,
                              width: int, height: int, row: int, column: int)
    requires '[' !in net
    ensures Vai.DeriveFilename(id, version, net, scale, width, height, row, column)
            == Vai.FilePrefix(id, version) + net
  {
    var subs := Vai.Substitutions(scale, width, height, row, column);
    assert forall k :: 0 <= k < |subs| ==> subs[k].0[0] == '[';
    ReplaceInOrderMissing(net, subs, '[');
  }

  /** The four replace-alls that turn the template `[S]` into the row's text when the scale label is `[R]`. */
  lemma ScaleLabelSteps(hs: string, ws: string, rs: string)
    ensures ReplaceAll("[S]", "[H]", hs) == "[S]" && ReplaceAll("[S]", "[W]", ws) == "[S]"
    ensures ReplaceAll("[S]", "[S]", "[R]") == "[R]" && ReplaceAll("[R]", "[R]", rs) == rs
  {
    assert Token(S) + "" == "[S]" && Token(H) == "[H]" && Token(W) == "[W]";
    ReplaceOneMiss(S, "", H, hs);
    ReplaceOneMiss(S, "", W, ws);
    assert "[S]" + "" == "[S]" && "[R]" + "" == "[R]";
    ReplaceAllHit("", "[S]", "[R]");
    ReplaceAllHit("", "[R]", rs);
  }

  /** The chain of five replacements on `[S]` when the scale label is `[R]` and the row's text has no `[`. */
  lemma ScaleLabelChain(hs: string, ws: string, rs: string, cs: string)
    requires '[' !in rs
    ensures ReplaceInOrder("[S]", [("[H]", hs), ("[W]", ws), ("[S]", "[R]"), ("[R]", rs), ("[C]", cs)]) == rs
  {
    var subs := [("[H]", hs), ("[W]", ws), ("[S]", "[R]"), ("[R]", rs), ("[C]", cs)];
    ScaleLabelSteps(hs, ws, rs);
    assert subs[0..] == subs;
    ReplaceInOrderAt("[S]", subs, 0);
    ReplaceInOrderAt("[S]", subs, 1);
    ReplaceInOrderAt("[S]", subs, 2);
    ReplaceInOrderAt("[R]", subs, 3);
    ReplaceInOrderMissing(rs, subs[4..], '[');
  }

  /**
   * Later replacements also rewrite placeholder text that an earlier value brought in:
   * a scale label `[R]` put in for `[S]` is then replaced by the row.
   */
  lemma ScaleLabelRewritten(id: string, version: string, width: int, height: int, row: int, column: int)
    ensures Vai.DeriveFilename(id, version, "[S]", "[R]", width, height, row, column)
            == Vai.FilePrefix(id, version) + IntToString(row)
  {
    IntTextHasNoBracket(row);
    ScaleLabelChain(IntToString(height), IntToString(width), IntToString(row), IntToString(column));
  }

  /** The pieces of the template `[H]x[W]`. */
  lemma ExampleText()
    ensures Text([Hole(H), Lit('x'), Hole(W)]) == "[H]x[W]"
  {
    var ps := [Hole(H), Lit('x'), Hole(W)];
    assert ps[1..] == [Lit('x'), Hole(W)] && ps[1..][1..] == [Hole(W)] && ps[1..][1..][1..] == [];
  }

  lemma ExampleRender(v: Values)
    requires v.height == "2" && v.width == "3"
    ensures Render([Hole(H), Lit('x'), Hole(W)], v) == "2x3"
  {
    var ps := [Hole(H), Lit('x'), Hole(W)];
    assert ps[1..] == [Lit('x'), Hole(W)] && ps[1..][1..] == [Hole(W)] && ps[1..][1..][1..] == [];
    assert Render(ps[1..][1..], v) == "3";
    assert Render(ps[1..], v) == "x3";
  }

  lemma SmallIntTexts()
    ensures IntToString(2) == "2" && IntToString(3) == "3"
  {
  }

  /** A concrete instance of `derive_filename`: `[W]` takes the width and `[H]` the height. */
  lemma ExampleFilename()
    ensures Vai.DeriveFilename("m", "1", "[H]x[W]", "4", 3, 2, 0, 0) == "m-v1-2x3"
  {
    var ps := [Hole(H), Lit('x'), Hole(W)];
    var v := Values(IntToString(2), IntToString(3), "4", IntToString(0), IntToString(0));
    ExampleText();
    SmallIntTexts();
    ExampleRender(v);
    DeriveFilenameRenders("m", "1", ps, "4", 3, 2, 0, 0);
    assert Vai.DeriveFilename("m", "1", Text(ps), "4", 3, 2, 0, 0) == Vai.FilePrefix("m", "1") + "2x3";
    assert Vai.FilePrefix("m", "1") + "2x3" == "m-v1-2x3";
  }

  /**
   * The block list [3, 2] of a backend without capabilities gives one file, in which the
   * first block value fills `[W]` and the second `[H]`.
   */
  lemma ExampleBlockFiles()
    ensures Vai.NetBlockFiles("m", "1", "[H]x[W]", "4", [3, 2], []) == ["m-v1-2x3"]
  {
    var pairs := Vai.Permute([3, 2]);
    assert pairs == [(3, 2)];
    Vai.UngatedBlockFilesCount("m", "1", "[H]x[W]", "4", pairs);
    Vai.BlockFilesUngatedAt("m", "1", "[H]x[W]", "4", pairs, 0);
    ExampleFilename();
  }
}
