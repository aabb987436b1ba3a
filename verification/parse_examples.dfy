/**
 * The executable examples that accompany the array-text parser
 * (test/parse.rb, lines 98-131), stated as lemmas about the model, one per
 * example.
 */
module ParseExamples {
  import opened Wrappers
  import opened ArrayText
  import opened ArrayTextRoundTrip

  /** " 4 " at dimension 0 is the integer 4; " 4, 5 " holds a separator and fails. */
  lemma ScalarExamples()
    ensures Parse(" 4 ", 0) == Success(Scalar(4))
    ensures Parse(" 4, 5 ", 0) == Failure(TooManyDimensions)
  {
  }

  /** The tokens of a padded three-element text carry the padding on its first and last token. */
  lemma PaddedTokens(ps: seq<string>)
    requires ps == [" 1", "2", "3 "]
    ensures Numerics(ps) == Success([1, 2, 3])
  {
    NumericOfFormatInt(1, " ", "");
    assert " " + FormatInt(1) + "" == " 1";
    NumericOfFormatInt(3, "", " ");
    assert "" + FormatInt(3) + " " == "3 ";
    NumericOfToken(2);
    NumericsAll(ps, [1, 2, 3]);
  }

  /** The padded text " 1c2c3 " splits on `c` into " 1", "2" and "3 ". */
  lemma PaddedSplit(c: char)
    requires IsSeparator(c)
    ensures Split([' ', '1', c, '2', c, '3', ' '], c) == [" 1", "2", "3 "]
  {
    var ps := [" 1", "2", "3 "];
    assert Join(ps[2..], c) == "3 ";
    assert Join(ps[1..], c) == ['2', c, '3', ' '];
    assert Join(ps, c) == [' ', '1', c, '2', c, '3', ' '];
    SplitOfJoin(ps, c);
  }

  /** The padded text " 1c2c3 " holds one kind of separator, `c`. */
  lemma OnlySeparator(c: char)
    requires IsSeparator(c)
    ensures SeparatorList([' ', '1', c, '2', c, '3', ' ']) == [c]
  {
    var data := [' ', '1', c, '2', c, '3', ' '];
    assert c in data;
    assert forall d :: d in data ==> d == ' ' || d == '1' || d == '2' || d == '3' || d == c;
    if c == ';' {
      assert ',' !in data && ':' !in data;
    } else if c == ',' {
      assert ';' !in data && ':' !in data;
    } else {
      assert ';' !in data && ',' !in data;
    }
  }

  /** " 1c2c3 " with any one separator `c` reads as [1,2,3] at dimension 1. */
  lemma PaddedVector(data: string, c: char)
    requires IsSeparator(c) && data == [' ', '1', c, '2', c, '3', ' ']
    ensures Parse(data, 1) == Success(Vector([1, 2, 3]))
  {
    PaddedSplit(c);
    PaddedTokens([" 1", "2", "3 "]);
    OnlySeparator(c);
    VectorCase(data);
  }

  lemma VectorCommaExample()
    ensures Parse(" 1,2,3 ", 1) == Success(Vector([1, 2, 3]))
  {
    PaddedVector(" 1,2,3 ", ',');
  }

  lemma VectorColonExample()
    ensures Parse(" 1:2:3 ", 1) == Success(Vector([1, 2, 3]))
  {
    PaddedVector(" 1:2:3 ", ':');
  }

  lemma VectorSemicolonExample()
    ensures Parse(" 1;2;3 ", 1) == Success(Vector([1, 2, 3]))
  {
    PaddedVector(" 1;2;3 ", ';');
  }

  /** Two separators are too many for dimension 1, three too many for dimension 2. */
  lemma TooManyDimensionsExamples()
    ensures Parse(" 1,2:3 ", 1) == Failure(TooManyDimensions)
    ensures Parse(" 1,2:3;4 ", 2) == Failure(TooManyDimensions)
  {
  }

  lemma MatrixScalarExample()
    ensures Parse("1", 2) == Success(Matrix([[1]]))
  {
    assert RenderMatrix([[1]], ';', ':') == "1";
    MatrixRoundTrip([[1]], ':');
  }

  lemma MatrixRowExample()
    ensures Parse("1:2", 2) == Success(Matrix([[1, 2]]))
  {
    assert RenderVector([1, 2], ':') == "1:2";
    OneRowRoundTrip([1, 2], ':');
  }

  /** The commented-out example: one comma at dimension 2 could be a row or a column. */
  lemma MatrixAmbiguousExample()
    ensures Parse("1,2", 2) == Failure(Ambiguous("1,2"))
  {
    assert SeparatorList("1,2") == [','];
    MatrixCommaCase("1,2");
  }

  lemma MatrixColumnExample()
    ensures Parse("1;2", 2) == Success(Matrix([[1], [2]]))
  {
    assert RenderMatrix([[1], [2]], ';', ':') == "1;2";
    MatrixRoundTrip([[1], [2]], ':');
  }

  lemma MatrixSemicolonCommaExample()
    ensures Parse("1,2;3,4", 2) == Success(Matrix([[1, 2], [3, 4]]))
  {
    assert RenderMatrix([[1, 2], [3, 4]], ';', ',') == "1,2;3,4";
    MatrixRoundTrip([[1, 2], [3, 4]], ',');
  }

  lemma MatrixSemicolonColonExample()
    ensures Parse("1:2;3:4", 2) == Success(Matrix([[1, 2], [3, 4]]))
  {
    assert RenderMatrix([[1, 2], [3, 4]], ';', ':') == "1:2;3:4";
    MatrixRoundTrip([[1, 2], [3, 4]], ':');
  }

  /** Without a semicolon, the comma separates the rows and the colon the cells. */
  lemma MatrixCommaColonExample()
    ensures Parse("1:2,3:4", 2) == Success(Matrix([[1, 2], [3, 4]]))
  {
    var rows := [[1, 2], [3, 4]];
    assert RenderMatrix(rows, ',', ':') == "1:2,3:4";
    RenderedRowsPlain(rows, ':', ',');
    SplitOfJoin(RenderRows(rows, ':'), ',');
    WideRowsRoundTrip(rows, ',', ':');
  }

  /** Two pieces joined with a separator. */
  lemma JoinTwo(a: string, b: string, c: char)
    ensures Join([a, b], c) == a + [c] + b
  {
    assert [a, b][1..] == [b];
  }

  /** Three pieces joined with a separator. */
  lemma JoinThree(a: string, b: string, d: string, c: char)
    ensures Join([a, b, d], c) == a + [c] + b + [c] + d
  {
    assert [a, b, d][1..] == [b, d];
    JoinTwo(b, d, c);
  }

  /** A row of three cells, written with colons. */
  lemma RowText(x: int, y: int, z: int, a: string, b: string, d: string, t: string)
    requires FormatInt(x) == a && FormatInt(y) == b && FormatInt(z) == d
    requires t == a + ":" + b + ":" + d
    ensures RenderVector([x, y, z], ':') == t
  {
    assert Tokens([x, y, z]) == [a, b, d];
    JoinThree(a, b, d, ':');
  }

  /** A sheet of two rows, written with a comma between them. */
  lemma SheetText(r0: seq<int>, r1: seq<int>, t0: string, t1: string, t: string)
    requires RenderVector(r0, ':') == t0 && RenderVector(r1, ':') == t1
    requires t == t0 + "," + t1
    ensures RenderMatrix([r0, r1], ',', ':') == t
  {
    assert RenderRows([r0, r1], ':') == [t0, t1];
    JoinTwo(t0, t1, ',');
  }

  /** A cube of two sheets, written with a semicolon between them. */
  lemma CubeOfSheets(s0: seq<seq<int>>, s1: seq<seq<int>>, t0: string, t1: string, t: string)
    requires RenderMatrix(s0, ',', ':') == t0 && RenderMatrix(s1, ',', ':') == t1
    requires t == t0 + ";" + t1
    ensures RenderCube([s0, s1]) == t
  {
    assert RenderSheets([s0, s1]) == [t0, t1];
    JoinTwo(t0, t1, ';');
  }

  lemma TwoDigitTexts()
    ensures FormatInt(10) == "10" && FormatInt(11) == "11" && FormatInt(12) == "12"
  {
  }

  lemma FirstSheetText()
    ensures RenderMatrix([[1, 2, 3], [4, 5, 6]], ',', ':') == "1:2:3,4:5:6"
  {
    RowText(1, 2, 3, "1", "2", "3", "1:2:3");
    RowText(4, 5, 6, "4", "5", "6", "4:5:6");
    SheetText([1, 2, 3], [4, 5, 6], "1:2:3", "4:5:6", "1:2:3,4:5:6");
  }

  /** The second sheet's text, piece by piece. */
  lemma SecondSheetTextSplit()
    ensures "7:8:9,10:11:12" == "7:8:9" + "," + "10:11:12"
    ensures "7:8:9" == "7" + ":" + "8" + ":" + "9"
    ensures "10:11:12" == "10" + ":" + "11" + ":" + "12"
  {
  }

  lemma SecondSheetText()
    ensures RenderMatrix([[7, 8, 9], [10, 11, 12]], ',', ':') == "7:8:9,10:11:12"
  {
    TwoDigitTexts();
    SecondSheetTextSplit();
    RowText(7, 8, 9, "7", "8", "9", "7:8:9");
    RowText(10, 11, 12, "10", "11", "12", "10:11:12");
    SheetText([7, 8, 9], [10, 11, 12], "7:8:9", "10:11:12", "7:8:9,10:11:12");
  }

  /** The cube's text is its two sheets' texts with a semicolon between them. */
  lemma CubeTextSplit()
    ensures "1:2:3,4:5:6;7:8:9,10:11:12" == "1:2:3,4:5:6" + ";" + "7:8:9,10:11:12"
  {
  }

  lemma CubeText()
    ensures RenderCube([[[1, 2, 3], [4, 5, 6]], [[7, 8, 9], [10, 11, 12]]]) == "1:2:3,4:5:6;7:8:9,10:11:12"
  {
    CubeTextSplit();
    FirstSheetText();
    SecondSheetText();
    CubeOfSheets([[1, 2, 3], [4, 5, 6]], [[7, 8, 9], [10, 11, 12]], "1:2:3,4:5:6", "7:8:9,10:11:12", "1:2:3,4:5:6;7:8:9,10:11:12");
  }

  lemma CubeFullExample()
    ensures Parse("1:2:3,4:5:6;7:8:9,10:11:12", 3) ==
      Success(Cube([[[1, 2, 3], [4, 5, 6]], [[7, 8, 9], [10, 11, 12]]]))
  {
    CubeText();
    CubeRoundTrip([[[1, 2, 3], [4, 5, 6]], [[7, 8, 9], [10, 11, 12]]]);
  }

  lemma CubeScalarExample()
    ensures Parse("1", 3) == Success(Cube([[[1]]]))
  {
    assert RenderCube([[[1]]]) == "1";
    CubeRoundTrip([[[1]]]);
  }

  lemma CubeRowExample()
    ensures Parse("1:2", 3) == Success(Cube([[[1, 2]]]))
  {
    assert RenderCube([[[1, 2]]]) == "1:2";
    CubeRoundTrip([[[1, 2]]]);
  }

  /** Where dimension 2 found "1,2" ambiguous, dimension 3 reads it as two rows of one sheet. */
  lemma CubeCommaExample()
    ensures Parse("1,2", 3) == Success(Cube([[[1], [2]]]))
  {
    assert RenderCube([[[1], [2]]]) == "1,2";
    CubeRoundTrip([[[1], [2]]]);
  }

  lemma CubeSemicolonExample()
    ensures Parse("1;2", 3) == Success(Cube([[[1]], [[2]]]))
  {
    assert RenderCube([[[1]], [[2]]]) == "1;2";
    CubeRoundTrip([[[1]], [[2]]]);
  }

  lemma CubeSheetsExample()
    ensures Parse("1,2;3,4", 3) == Success(Cube([[[1], [2]], [[3], [4]]]))
  {
    assert RenderCube([[[1], [2]], [[3], [4]]]) == "1,2;3,4";
    CubeRoundTrip([[[1], [2]], [[3], [4]]]);
  }
}
