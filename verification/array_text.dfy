/**
 * The reference algorithm that reads N-dimensional numeric arrays out of the
 * text body of an XML element (test/parse.rb).
 *
 * Three separator characters are recognised, in precedence order from the
 * outermost structural level to the innermost: semicolon, comma, colon.
 * Splitting follows Ruby's String#split: the pieces between separators, with
 * trailing empty pieces dropped; splitting on " " splits on runs of white
 * space.  Tokens are integers (see Numeric).
 */
module ArrayText {
  import opened Wrappers

  /** The DataError raised by the parser, with the reason it gives. */
  datatype DataError =
    | TooManyDimensions        // more distinct separators than the dimension
    | Ambiguous(data: string)  // a 2-D text holding commas only
    | NotNumeric(token: string)

  /** The nested array a parse returns; NoValue is Ruby's nil for a dimension above 3. */
  datatype Value =
    | Scalar(n: int)
    | Vector(xs: seq<int>)
    | Matrix(rows: seq<seq<int>>)
    | Cube(sheets: seq<seq<seq<int>>>)
    | NoValue

  /** The nesting depth of a parsed value: 0 for a scalar, up to 3 for a cube. */
  function Depth(v: Value): int {
    match v
    case Scalar(_) => 0
    case Vector(_) => 1
    case Matrix(_) => 2
    case Cube(_) => 3
    case NoValue => -1
  }

  // ---------------------------------------------------------------------------
  // Characters and Ruby's String#split
  // ---------------------------------------------------------------------------

  /** ASCII white space, as Ruby's Integer() and split(" ") understand it. */
  predicate IsSpace(c: char) {
    c == ' ' || c == '\t' || c == '\n' || c == '\U{000B}' || c == '\U{000C}' || c == '\r'
  }

  predicate IsSeparator(c: char) { c == ';' || c == ',' || c == ':' }

  /** `s.split(c)` before Ruby drops the trailing empty pieces: every piece between two c's. */
  function RawSplit(s: string, c: char): (r: seq<string>)
    ensures |r| >= 1
  {
    if s == [] then [""]
    else
      var rest := RawSplit(s[1..], c);
      if s[0] == c then [""] + rest else [[s[0]] + rest[0]] + rest[1..]
  }

  function DropTrailingEmpty(ps: seq<string>): (r: seq<string>)
    ensures |r| <= |ps| && r == ps[..|r|]
    ensures r != [] ==> r[|r| - 1] != ""
    ensures forall k :: |r| <= k < |ps| ==> ps[k] == ""
  {
    if ps != [] && ps[|ps| - 1] == "" then DropTrailingEmpty(ps[..|ps| - 1]) else ps
  }

  /**
   * Ruby's `s.split(c)` for a one-character separator other than space: no piece
   * holds the separator, and the last piece is never empty.
   */
  function Split(s: string, c: char): (r: seq<string>)
    ensures forall k :: 0 <= k < |r| ==> c !in r[k]
    ensures r != [] ==> r[|r| - 1] != ""
  {
    RawSplitJoin(s, c);
    DropTrailingEmpty(RawSplit(s, c))
  }

  /** The pieces joined back with the separator between them. */
  function Join(ps: seq<string>, c: char): string {
    if ps == [] then ""
    else if |ps| == 1 then ps[0]
    else ps[0] + [c] + Join(ps[1..], c)
  }

  /** Every piece of RawSplit is free of the separator, and joining the pieces gives back the text. */
  lemma {:induction false} RawSplitJoin(s: string, c: char)
    ensures Join(RawSplit(s, c), c) == s
    ensures forall k :: 0 <= k < |RawSplit(s, c)| ==> c !in RawSplit(s, c)[k]
  {
    if s != [] {
      RawSplitJoin(s[1..], c);
      var rest := RawSplit(s[1..], c);
      if s[0] == c {
        assert RawSplit(s, c) == [""] + rest;
        assert Join([""] + rest, c) == [c] + Join(rest, c);
      } else {
        var r := RawSplit(s, c);
        assert r == [[s[0]] + rest[0]] + rest[1..];
        if |rest| == 1 {
          assert Join(r, c) == [s[0]] + rest[0];
        } else {
          assert Join(rest, c) == rest[0] + [c] + Join(rest[1..], c);
          assert r[1..] == rest[1..];
          assert Join(r, c) == [s[0]] + rest[0] + [c] + Join(rest[1..], c);
        }
        assert s == [s[0]] + s[1..];
      }
    }
  }

  /** Joining pieces that do not hold the separator and splitting again gives the pieces back. */
  lemma {:induction false} RawSplitOfJoin(ps: seq<string>, c: char)
    requires |ps| >= 1
    requires forall k :: 0 <= k < |ps| ==> c !in ps[k]
    ensures RawSplit(Join(ps, c), c) == ps
  {
    if |ps| == 1 {
      RawSplitNoSeparator(ps[0], c);
    } else {
      RawSplitOfJoin(ps[1..], c);
      RawSplitAppend(ps[0], Join(ps[1..], c), c);
      ConsSplit(ps);
    }
  }

  lemma {:induction false} RawSplitNoSeparator(s: string, c: char)
    requires c !in s
    ensures RawSplit(s, c) == [s]
  {
    if s != [] {
      RawSplitNoSeparator(s[1..], c);
      ConsSplit(s);
    }
  }

  /** Splitting `a + [c] + b` where `a` has no `c` splits off exactly `a`. */
  lemma {:induction false} RawSplitAppend(a: string, b: string, c: char)
    requires c !in a
    ensures RawSplit(a + [c] + b, c) == [a] + RawSplit(b, c)
  {
    if a == [] {
      assert a + [c] + b == [c] + b;
      assert ([c] + b)[1..] == b;
    } else {
      RawSplitAppend(a[1..], b, c);
      assert (a + [c] + b)[1..] == a[1..] + [c] + b;
      ConsSplit(a);
    }
  }

  /** Ruby's split of a join of non-empty, separator-free pieces gives the pieces back. */
  lemma SplitOfJoin(ps: seq<string>, c: char)
    requires forall k :: 0 <= k < |ps| ==> ps[k] != "" && c !in ps[k]
    ensures Split(Join(ps, c), c) == ps
  {
    if ps == [] {
      assert RawSplit("", c) == [""];
      assert DropTrailingEmpty([""]) == DropTrailingEmpty([]);
    } else {
      RawSplitOfJoin(ps, c);
    }
  }

  /** A character occurs in a join exactly when it is the separator between two pieces or occurs in a piece. */
  lemma {:induction false} InJoin(ps: seq<string>, c: char, d: char)
    ensures d in Join(ps, c) <==> (d == c && |ps| >= 2) || exists k :: 0 <= k < |ps| && d in ps[k]
  {
    if |ps| >= 2 {
      InJoin(ps[1..], c, d);
      if d in Join(ps[1..], c) && !(d == c && |ps[1..]| >= 2) {
        var k :| 0 <= k < |ps[1..]| && d in ps[1..][k];
        assert d in ps[k + 1];
      }
      forall k | 0 <= k < |ps| && d in ps[k]
        ensures d in Join(ps, c)
      {
        if k > 0 { assert d in ps[1..][k - 1]; }
      }
    }
  }

  /** The maximal runs of non-space characters: Ruby's `s.split(" ")`. */
  function Fields(s: string): (r: seq<string>)
    ensures forall k :: 0 <= k < |r| ==> r[k] != "" && forall i :: 0 <= i < |r[k]| ==> !IsSpace(r[k][i])
    decreases |s|
  {
    if s == [] then []
    else if IsSpace(s[0]) then Fields(s[1..])
    else
      var n := WordLength(s);
      [s[..n]] + Fields(s[n..])
  }

  /** Length of the run of non-space characters at the start of `s`. */
  function WordLength(s: string): (n: nat)
    ensures n <= |s|
    ensures forall k :: 0 <= k < n ==> !IsSpace(s[k])
    ensures n < |s| ==> IsSpace(s[n])
    ensures s != [] && !IsSpace(s[0]) ==> n >= 1
  {
    if s == [] || IsSpace(s[0]) then 0 else 1 + WordLength(s[1..])
  }

  /** A text with no white space in it is one field, or none when it is empty. */
  lemma FieldsOfWord(s: string)
    requires forall k :: 0 <= k < |s| ==> !IsSpace(s[k])
    ensures Fields(s) == if s == [] then [] else [s]
  {
    if s != [] {
      var n := WordLength(s);
      assert n == |s|;
      assert s[..n] == s && s[n..] == [];
    }
  }

  // ---------------------------------------------------------------------------
  // Numeric tokens
  // ---------------------------------------------------------------------------

  predicate IsDigit(c: char) { '0' <= c <= '9' }

  /** A decimal digit string without superfluous leading zeros. */
  predicate IsDecimal(t: string) {
    |t| >= 1 && (forall k :: 0 <= k < |t| ==> IsDigit(t[k])) && (t[0] != '0' || |t| == 1)
  }

  /** The integer literals Numeric accepts: an optional sign followed by a decimal. */
  predicate IsIntLiteral(t: string) {
    IsDecimal(t) || (|t| >= 2 && (t[0] == '-' || t[0] == '+') && IsDecimal(t[1..]))
  }

  function DigitsValue(t: string): nat
    requires forall k :: 0 <= k < |t| ==> IsDigit(t[k])
  {
    if t == [] then 0
    else
      assert IsDigit(t[|t| - 1]);
      DigitsValue(t[..|t| - 1]) * 10 + (t[|t| - 1] as int - '0' as int)
  }

  function IntValue(t: string): int
    requires IsIntLiteral(t)
  {
    if IsDecimal(t) then DigitsValue(t)
    else if t[0] == '-' then -(DigitsValue(t[1..]) as int)
    else DigitsValue(t[1..])
  }

  /** `s` with its leading and trailing white space removed. */
  function Strip(s: string): (r: string)
    ensures r == [] || (!IsSpace(r[0]) && !IsSpace(r[|r| - 1]))
    decreases |s|
  {
    if s != [] && IsSpace(s[0]) then Strip(s[1..])
    else if s != [] && IsSpace(s[|s| - 1]) then Strip(s[..|s| - 1])
    else s
  }

  /**
   * `numeric`: the token read as an integer, white space around it allowed;
   * any other token raises DataError naming the token.
   */
  function Numeric(s: string): (r: Result<int, DataError>)
    ensures r.Failure? ==> r.error == NotNumeric(s)
    ensures r.Success? <==> IsIntLiteral(Strip(s))
  {
    var t := Strip(s);
    if IsIntLiteral(t) then Success(IntValue(t)) else Failure(NotNumeric(s))
  }

  /** Decimal digits of a natural number, most significant first. */
  function Digits(n: nat): (t: string)
    ensures IsDecimal(t)
  {
    if n < 10 then [('0' as int + n) as char]
    else
      var t := Digits(n / 10) + [('0' as int + n % 10) as char];
      assert t[..|t| - 1] == Digits(n / 10);
      t
  }

  /** The canonical text of an integer: a minus sign for negatives, then its digits. */
  function FormatInt(n: int): string {
    if n < 0 then "-" + Digits(-n) else Digits(n)
  }

  lemma {:induction false} DigitsValueOfDigits(n: nat)
    ensures DigitsValue(Digits(n)) == n
  {
    if n >= 10 {
      DigitsValueOfDigits(n / 10);
      var t := Digits(n);
      assert t[..|t| - 1] == Digits(n / 10);
    }
  }

  lemma {:induction false} DigitsOfDigitsValue(t: string)
    requires IsDecimal(t)
    ensures Digits(DigitsValue(t)) == t
    decreases |t|
  {
    var p := t[..|t| - 1];
    var d := t[|t| - 1] as int - '0' as int;
    if |t| > 1 {
      assert p[0] == t[0];
      DigitsOfDigitsValue(p);
      assert DigitsValue(t) == DigitsValue(p) * 10 + d;
      assert DigitsValue(p) >= 1 by {
        DigitsOfDigitsValue(p);
        assert Digits(0) == "0";
      }
      assert DigitsValue(t) / 10 == DigitsValue(p) && DigitsValue(t) % 10 == d;
      assert t == p + [t[|t| - 1]];
    }
  }

  /** Reading a token inverts FormatInt, with any white space around it. */
  lemma NumericOfFormatInt(n: int, pre: string, post: string)
    requires forall k :: 0 <= k < |pre| ==> IsSpace(pre[k])
    requires forall k :: 0 <= k < |post| ==> IsSpace(post[k])
    ensures Numeric(pre + FormatInt(n) + post) == Success(n)
  {
    var t := FormatInt(n);
    StripAround(pre, t, post);
    if n < 0 {
      assert t[1..] == Digits(-n);
      DigitsValueOfDigits(-n);
    } else {
      DigitsValueOfDigits(n);
    }
  }

  /** The canonical text of an integer reads back as that integer. */
  lemma NumericOfToken(n: int)
    ensures Numeric(FormatInt(n)) == Success(n)
  {
    NumericOfFormatInt(n, [], []);
    assert [] + FormatInt(n) + [] == FormatInt(n);
  }

  /**
   * Numeric succeeds with `n` exactly when the stripped token is FormatInt(n),
   * or "+" followed by it, or "-0" for zero.
   */
  lemma NumericExactly(s: string, n: int)
    ensures Numeric(s) == Success(n) <==>
      || Strip(s) == FormatInt(n)
      || (n >= 0 && Strip(s) == "+" + FormatInt(n))
      || (n == 0 && Strip(s) == "-0")
  {
    var t := Strip(s);
    if IsIntLiteral(t) && IntValue(t) == n {
      LiteralIsFormatted(t);
    }
    if t == FormatInt(n) || (n >= 0 && t == "+" + FormatInt(n)) || (n == 0 && t == "-0") {
      LiteralOfFormatted(t, n);
    }
  }

  /** An accepted literal is the canonical text of its value, possibly with a "+" or as "-0". */
  lemma LiteralIsFormatted(t: string)
    requires IsIntLiteral(t)
    ensures || t == FormatInt(IntValue(t))
            || (IntValue(t) >= 0 && t == "+" + FormatInt(IntValue(t)))
            || (IntValue(t) == 0 && t == "-0")
  {
    if IsDecimal(t) {
      DigitsOfDigitsValue(t);
    } else {
      var d := t[1..];
      DigitsOfDigitsValue(d);
      assert t == [t[0]] + d;
      if t[0] == '-' && DigitsValue(d) == 0 {
        assert d == Digits(0) == "0";
      }
    }
  }

  /** The canonical texts of `n` are accepted literals whose value is `n`. */
  lemma LiteralOfFormatted(t: string, n: int)
    requires || t == FormatInt(n)
             || (n >= 0 && t == "+" + FormatInt(n))
             || (n == 0 && t == "-0")
    ensures IsIntLiteral(t) && IntValue(t) == n
  {
    if n == 0 && t == "-0" {
      assert t[1..] == "0";
      assert DigitsValue("0") == 0;
    } else if n < 0 {
      assert t[1..] == Digits(-n);
      DigitsValueOfDigits(-n);
    } else if t == FormatInt(n) {
      DigitsValueOfDigits(n);
    } else {
      assert t[1..] == Digits(n);
      DigitsValueOfDigits(n);
    }
  }

  lemma {:induction false} StripAround(pre: string, t: string, post: string)
    requires forall k :: 0 <= k < |pre| ==> IsSpace(pre[k])
    requires forall k :: 0 <= k < |post| ==> IsSpace(post[k])
    requires t == [] || (!IsSpace(t[0]) && !IsSpace(t[|t| - 1]))
    ensures Strip(pre + t + post) == t
    decreases |pre|
  {
    var s := pre + t + post;
    if pre != [] {
      assert s[0] == pre[0];
      assert s[1..] == pre[1..] + t + post;
      StripAround(pre[1..], t, post);
    } else {
      assert s == t + post;
      StripTrailing(t, post);
    }
  }

  /** Stripping text followed by white space leaves the text. */
  lemma {:induction false} StripTrailing(t: string, post: string)
    requires forall k :: 0 <= k < |post| ==> IsSpace(post[k])
    requires t == [] || (!IsSpace(t[0]) && !IsSpace(t[|t| - 1]))
    ensures Strip(t + post) == t
    decreases |post|
  {
    var s := t + post;
    if post == [] {
      assert s == t;
    } else if t == [] {
      assert s == post && IsSpace(s[0]);
      assert s[1..] == [] + post[1..];
      StripTrailing([], post[1..]);
    } else {
      assert s[|s| - 1] == post[|post| - 1];
      assert s[..|s| - 1] == t + post[..|post| - 1];
      StripTrailing(t, post[..|post| - 1]);
    }
  }


  /** `xs` are the numbers the pieces `ps` read as, one for one and in order. */
  predicate ReadsAs(ps: seq<string>, xs: seq<int>) {
    |xs| == |ps| && forall k :: 0 <= k < |ps| ==> Numeric(ps[k]) == Success(xs[k])
  }

  /** Some piece is not a number and raises `e`, and every piece before it is a number. */
  predicate FirstBad(ps: seq<string>, e: DataError) {
    exists k :: 0 <= k < |ps| && Numeric(ps[k]) == Failure(e) && forall j :: 0 <= j < k ==> Numeric(ps[j]).Success?
  }

  /** Every token read as a number, in order; the first token that is not one raises. */
  function Numerics(ps: seq<string>): (r: Result<seq<int>, DataError>)
    ensures r.Success? <==> forall k :: 0 <= k < |ps| ==> Numeric(ps[k]).Success?
    ensures r.Success? ==> ReadsAs(ps, r.value)
    ensures r.Failure? ==> FirstBad(ps, r.error)
  {
    if ps == [] then Success([])
    else
      match Numeric(ps[0])
      case Failure(e) => Failure(e)
      case Success(x) =>
        match Numerics(ps[1..])
        case Failure(e) =>
          assert forall j :: 1 <= j < |ps| ==> ps[j] == ps[1..][j - 1];
          Failure(e)
        case Success(xs) =>
          assert forall j :: 1 <= j < |ps| ==> ps[j] == ps[1..][j - 1];
          Success([x] + xs)
  }

  /** Conversely, when every token reads as a number, Numerics gives all of them in order. */
  lemma {:induction false} NumericsAll(ps: seq<string>, xs: seq<int>)
    requires |ps| == |xs| && forall k :: 0 <= k < |ps| ==> Numeric(ps[k]) == Success(xs[k])
    ensures Numerics(ps) == Success(xs)
  {
    if ps != [] {
      NumericsAll(ps[1..], xs[1..]);
      ConsSplit(xs);
    }
  }

  /** Each piece read as a one-element row; the first piece that is not a number raises. */
  function Singletons(ps: seq<string>): (r: Result<seq<seq<int>>, DataError>)
    ensures r.Success? <==> forall k :: 0 <= k < |ps| ==> Numeric(ps[k]).Success?
    ensures r.Success? ==> |r.value| == |ps|
    ensures r.Success? ==> forall k :: 0 <= k < |ps| ==> |r.value[k]| == 1 && Numeric(ps[k]) == Success(r.value[k][0])
    ensures r.Failure? ==> FirstBad(ps, r.error)
  {
    if ps == [] then Success([])
    else
      match Numeric(ps[0])
      case Failure(e) => Failure(e)
      case Success(x) =>
        match Singletons(ps[1..])
        case Failure(e) =>
          assert forall j :: 1 <= j < |ps| ==> ps[j] == ps[1..][j - 1];
          Failure(e)
        case Success(xs) =>
          assert forall j :: 1 <= j < |ps| ==> ps[j] == ps[1..][j - 1];
          Success([[x]] + xs)
  }

  /** Row `k` of `ps` holds the first non-number, which raises `e`; every row before it reads. */
  predicate FirstBadRow(ps: seq<string>, c: char, k: nat, e: DataError)
    requires k < |ps|
  {
    FirstBad(Split(ps[k], c), e) && forall j :: 0 <= j < k ==> Numerics(Split(ps[j], c)).Success?
  }

  /** Sheet `k` of `ps` holds the first non-number, which raises `e`; every sheet before it reads. */
  predicate FirstBadSheet(ps: seq<string>, k: nat, e: DataError)
    requires k < |ps|
  {
    Rows(Split(ps[k], ','), ':') == Failure(e) && forall j :: 0 <= j < k ==> Rows(Split(ps[j], ','), ':').Success?
  }

  /** Each row split on `c` and its cells read as numbers; the first row holding a non-number raises. */
  function Rows(ps: seq<string>, c: char): (r: Result<seq<seq<int>>, DataError>)
    ensures r.Success? ==> |r.value| == |ps|
  {
    if ps == [] then Success([])
    else
      match Numerics(Split(ps[0], c))
      case Failure(e) => Failure(e)
      case Success(row) =>
        match Rows(ps[1..], c)
        case Failure(e) => Failure(e)
        case Success(rows) => Success([row] + rows)
  }

  /** What Rows reads: every row's cells in order, or the error of the first row holding a non-number. */
  lemma {:induction false} RowsRead(ps: seq<string>, c: char)
    ensures Rows(ps, c).Success? ==>
      forall k :: 0 <= k < |ps| ==> ReadsAs(Split(ps[k], c), Rows(ps, c).value[k])
    ensures Rows(ps, c).Failure? ==> exists k :: 0 <= k < |ps| && FirstBadRow(ps, c, k, Rows(ps, c).error)
  {
    if ps != [] {
      RowsRead(ps[1..], c);
      var tail := Rows(ps[1..], c);
      if Numerics(Split(ps[0], c)).Failure? {
        assert FirstBadRow(ps, c, 0, Rows(ps, c).error);
      } else if tail.Failure? {
        var e := tail.error;
        assert Rows(ps, c) == Failure(e);
        var k :| 0 <= k < |ps[1..]| && FirstBadRow(ps[1..], c, k, e);
        assert ps[k + 1] == ps[1..][k];
        forall j | 0 < j < k + 1
          ensures Numerics(Split(ps[j], c)).Success?
        {
          assert ps[j] == ps[1..][j - 1];
        }
        assert FirstBadRow(ps, c, k + 1, e);
      } else {
        var rows := Rows(ps, c).value;
        forall k | 0 <= k < |ps|
          ensures ReadsAs(Split(ps[k], c), rows[k])
        {
          if k > 0 { assert ps[k] == ps[1..][k - 1] && rows[k] == tail.value[k - 1]; }
        }
      }
    }
  }

  /**
   * Each sheet split on comma into rows, and each row on colon into cells; the
   * first sheet holding a non-number raises.
   */
  function Sheets(ps: seq<string>): (r: Result<seq<seq<seq<int>>>, DataError>)
    ensures r.Success? ==> |r.value| == |ps|
  {
    if ps == [] then Success([])
    else
      match Rows(Split(ps[0], ','), ':')
      case Failure(e) => Failure(e)
      case Success(sheet) =>
        match Sheets(ps[1..])
        case Failure(e) => Failure(e)
        case Success(sheets) => Success([sheet] + sheets)
  }

  /** What Sheets reads: every sheet's rows in order, or the error of the first sheet holding a non-number. */
  lemma {:induction false} SheetsRead(ps: seq<string>)
    ensures Sheets(ps).Success? ==>
      forall k :: 0 <= k < |ps| ==> Rows(Split(ps[k], ','), ':') == Success(Sheets(ps).value[k])
    ensures Sheets(ps).Failure? ==> exists k :: 0 <= k < |ps| && FirstBadSheet(ps, k, Sheets(ps).error)
  {
    if ps != [] {
      SheetsRead(ps[1..]);
      var tail := Sheets(ps[1..]);
      if Rows(Split(ps[0], ','), ':').Failure? {
        assert FirstBadSheet(ps, 0, Sheets(ps).error);
      } else if tail.Failure? {
        var e := tail.error;
        assert Sheets(ps) == Failure(e);
        var k :| 0 <= k < |ps[1..]| && FirstBadSheet(ps[1..], k, e);
        assert ps[k + 1] == ps[1..][k];
        forall j | 0 < j < k + 1
          ensures Rows(Split(ps[j], ','), ':').Success?
        {
          assert ps[j] == ps[1..][j - 1];
        }
        assert FirstBadSheet(ps, k + 1, e);
      } else {
        var sheets := Sheets(ps).value;
        forall k | 0 <= k < |ps|
          ensures Rows(Split(ps[k], ','), ':') == Success(sheets[k])
        {
          if k > 0 { assert ps[k] == ps[1..][k - 1] && sheets[k] == tail.value[k - 1]; }
        }
      }
    }
  }

  // ---------------------------------------------------------------------------
  // parse
  // ---------------------------------------------------------------------------

  /** Precedence of a separator: semicolon above comma above colon. */
  function Rank(c: char): nat {
    if c == ';' then 2 else if c == ',' then 1 else 0
  }

  /** The separators present in the text, each once, from highest precedence to lowest (`seplist`). */
  function SeparatorList(data: string): (r: seq<char>)
    ensures forall c :: c in r <==> IsSeparator(c) && c in data
    ensures forall i, j :: 0 <= i < j < |r| ==> Rank(r[i]) > Rank(r[j])
  {
    (if ';' in data then [';'] else []) + (if ',' in data then [','] else [])
      + (if ':' in data then [':'] else [])
  }

  /** The separator a one-dimensional text splits on: comma, else semicolon, else colon, else space. */
  function VectorPieces(data: string): (r: seq<string>)
    ensures |SeparatorList(data)| == 1 ==> r == Split(data, SeparatorList(data)[0])
    ensures SeparatorList(data) == [] ==> r == Fields(data)
  {
    if ',' in data then Split(data, ',')
    else if ';' in data then Split(data, ';')
    else if ':' in data then Split(data, ':')
    else Fields(data)
  }

  function MapVector(r: Result<seq<int>, DataError>): Result<Value, DataError> {
    match r
    case Success(xs) => Success(Vector(xs))
    case Failure(e) => Failure(e)
  }

  function MapMatrix(r: Result<seq<seq<int>>, DataError>): Result<Value, DataError> {
    match r
    case Success(rows) => Success(Matrix(rows))
    case Failure(e) => Failure(e)
  }

  /** The two-dimensional branch of `parse`, by the number of separators present. */
  function ParseMatrix(data: string): (r: Result<Value, DataError>)
    requires |SeparatorList(data)| <= 2
    ensures r.Success? ==> r.value.Matrix?
  {
    var seplist := SeparatorList(data);
    if |seplist| == 0 then
      match Numeric(data)
      case Success(x) => Success(Matrix([[x]]))
      case Failure(e) => Failure(e)
    else if |seplist| == 1 then
      if ',' in data then Failure(Ambiguous(data))
      else if ':' in data then
        match Numerics(Split(data, ':'))
        case Success(row) => Success(Matrix([row]))
        case Failure(e) => Failure(e)
      else MapMatrix(Singletons(Split(data, ';')))
    else MapMatrix(Rows(Split(data, seplist[0]), seplist[1]))
  }

  /** `parse data, dim`. */
  function Parse(data: string, dim: int): (r: Result<Value, DataError>)
    ensures |SeparatorList(data)| > dim ==> r == Failure(TooManyDimensions)
    ensures r.Success? && 0 <= dim <= 3 ==> Depth(r.value) == dim
    ensures r.Success? && dim > 3 ==> r.value == NoValue
    ensures dim < 0 ==> r.Failure?
  {
    var seplist := SeparatorList(data);
    if |seplist| > dim then Failure(TooManyDimensions)
    else if dim == 0 then
      match Numeric(data)
      case Success(x) => Success(Scalar(x))
      case Failure(e) => Failure(e)
    else if dim == 1 then MapVector(Numerics(VectorPieces(data)))
    else if dim == 2 then ParseMatrix(data)
    else if dim == 3 then
      match Sheets(Split(data, ';'))
      case Success(sheets) => Success(Cube(sheets))
      case Failure(e) => Failure(e)
    else Success(NoValue)
  }

  // ---------------------------------------------------------------------------
  // The cases of parse, one lemma each
  // ---------------------------------------------------------------------------

  /** At dimension 0 the whole text, white space around it allowed, is one number. */
  lemma ScalarCase(data: string)
    requires SeparatorList(data) == []
    ensures Parse(data, 0) == match Numeric(data)
      case Success(x) => Success(Scalar(x))
      case Failure(e) => Failure(e)
  {
  }

  /**
   * At dimension 1 the pieces are those of the one separator present, or the
   * white-space separated fields when there is none; every piece is a number, in
   * order, or the first piece that is not one raises.
   */
  lemma VectorCase(data: string)
    requires |SeparatorList(data)| <= 1
    ensures Parse(data, 1).Success? <==>
      forall k :: 0 <= k < |VectorPieces(data)| ==> Numeric(VectorPieces(data)[k]).Success?
    ensures Parse(data, 1).Success? ==>
      Parse(data, 1).value.Vector? && ReadsAs(VectorPieces(data), Parse(data, 1).value.xs)
    ensures Parse(data, 1).Failure? ==> FirstBad(VectorPieces(data), Parse(data, 1).error)
  {
    assert Parse(data, 1) == MapVector(Numerics(VectorPieces(data)));
  }

  /** At dimension 2 a text without separators is a 1x1 matrix. */
  lemma MatrixScalarCase(data: string)
    requires SeparatorList(data) == []
    ensures Parse(data, 2) == match Numeric(data)
      case Success(x) => Success(Matrix([[x]]))
      case Failure(e) => Failure(e)
  {
  }

  /** At dimension 2 a text whose only separator is a comma is ambiguous. */
  lemma MatrixCommaCase(data: string)
    requires SeparatorList(data) == [',']
    ensures Parse(data, 2) == Failure(Ambiguous(data))
  {
  }

  /** At dimension 2 a text whose only separator is a colon is one row. */
  lemma MatrixColonCase(data: string)
    requires SeparatorList(data) == [':']
    ensures Parse(data, 2) == match Numerics(Split(data, ':'))
      case Success(row) => Success(Matrix([row]))
      case Failure(e) => Failure(e)
  {
  }

  lemma ParseColumn(data: string)
    requires SeparatorList(data) == [';']
    ensures Parse(data, 2) == MapMatrix(Singletons(Split(data, ';')))
  {
  }

  lemma ParseRows(data: string)
    requires |SeparatorList(data)| == 2
    ensures Parse(data, 2) == MapMatrix(Rows(Split(data, SeparatorList(data)[0]), SeparatorList(data)[1]))
  {
  }

  lemma ParseCube(data: string)
    ensures Parse(data, 3) == match Sheets(Split(data, ';'))
      case Success(sheets) => Success(Cube(sheets))
      case Failure(e) => Failure(e)
  {
  }

  /**
   * At dimension 2 a text whose only separator is a semicolon is a column: one
   * one-cell row per piece, or the first piece that is not a number raises.
   */
  lemma MatrixSemicolonCase(data: string)
    requires SeparatorList(data) == [';']
    ensures Parse(data, 2).Success? <==>
      forall k :: 0 <= k < |Split(data, ';')| ==> Numeric(Split(data, ';')[k]).Success?
    ensures Parse(data, 2).Success? ==> Parse(data, 2).value.Matrix?
    ensures Parse(data, 2).Success? ==> |Parse(data, 2).value.rows| == |Split(data, ';')|
    ensures Parse(data, 2).Success? ==> forall k :: 0 <= k < |Split(data, ';')| ==>
      |Parse(data, 2).value.rows[k]| == 1 && Numeric(Split(data, ';')[k]) == Success(Parse(data, 2).value.rows[k][0])
    ensures Parse(data, 2).Failure? ==> FirstBad(Split(data, ';'), Parse(data, 2).error)
  {
    ParseColumn(data);
  }

  /**
   * At dimension 2 with two separators, rows are the pieces of the higher one and
   * each row's cells the pieces of the lower one, or the first row holding a
   * non-number raises.
   */
  lemma MatrixTwoSeparatorCase(data: string)
    requires |SeparatorList(data)| == 2
    ensures Rank(SeparatorList(data)[0]) > Rank(SeparatorList(data)[1])
    ensures Parse(data, 2).Success? ==> Parse(data, 2).value.Matrix?
    ensures Parse(data, 2).Success? ==> |Parse(data, 2).value.rows| == |Split(data, SeparatorList(data)[0])|
    ensures Parse(data, 2).Success? ==> forall k :: 0 <= k < |Split(data, SeparatorList(data)[0])| ==>
      ReadsAs(Split(Split(data, SeparatorList(data)[0])[k], SeparatorList(data)[1]), Parse(data, 2).value.rows[k])
    ensures Parse(data, 2).Failure? ==> exists k :: (0 <= k < |Split(data, SeparatorList(data)[0])| &&
      FirstBadRow(Split(data, SeparatorList(data)[0]), SeparatorList(data)[1], k, Parse(data, 2).error))
  {
    var sl := SeparatorList(data);
    var ps := Split(data, sl[0]);
    ParseRows(data);
    RowsRead(ps, sl[1]);
  }

  /**
   * At dimension 3 the text always splits three levels, semicolon into sheets,
   * comma into rows and colon into cells, and every cell is a number; otherwise
   * the first sheet, and in it the first row, holding a non-number raises.
   */
  lemma CubeCase(data: string)
    ensures Parse(data, 3).Success? ==> Parse(data, 3).value.Cube?
    ensures Parse(data, 3).Success? ==> |Parse(data, 3).value.sheets| == |Split(data, ';')|
    ensures Parse(data, 3).Success? ==> forall k :: 0 <= k < |Split(data, ';')| ==>
      |Parse(data, 3).value.sheets[k]| == |Split(Split(data, ';')[k], ',')|
    ensures Parse(data, 3).Success? ==> forall k, j ::
      0 <= k < |Split(data, ';')| && 0 <= j < |Split(Split(data, ';')[k], ',')| ==>
      ReadsAs(Split(Split(Split(data, ';')[k], ',')[j], ':'), Parse(data, 3).value.sheets[k][j])
    ensures Parse(data, 3).Failure? ==> exists k, j ::
      0 <= k < |Split(data, ';')| && 0 <= j < |Split(Split(data, ';')[k], ',')| &&
      FirstBadSheet(Split(data, ';'), k, Parse(data, 3).error) &&
      FirstBadRow(Split(Split(data, ';')[k], ','), ':', j, Parse(data, 3).error)
  {
    var ps := Split(data, ';');
    ParseCube(data);
    SheetsRead(ps);
    if Sheets(ps).Success? {
      var sheets := Sheets(ps).value;
      assert Parse(data, 3) == Success(Cube(sheets));
      forall k | 0 <= k < |ps|
        ensures |sheets[k]| == |Split(ps[k], ',')|
        ensures forall j :: 0 <= j < |Split(ps[k], ',')| ==> ReadsAs(Split(Split(ps[k], ',')[j], ':'), sheets[k][j])
      {
        RowsRead(Split(ps[k], ','), ':');
      }
    } else {
      var e := Sheets(ps).error;
      assert Parse(data, 3) == Failure(e);
      var k :| 0 <= k < |ps| && FirstBadSheet(ps, k, e);
      RowsRead(Split(ps[k], ','), ':');
      var j :| 0 <= j < |Split(ps[k], ',')| && FirstBadRow(Split(ps[k], ','), ':', j, e);
    }
  }
}

/**
 * What the parser reads back: arrays written out with the separators between
 * their elements.  The writer here is the model's own canonical rendering, used
 * to state which texts parse to which arrays; it is not the emitter of the
 * generated code.
 */
module ArrayTextRoundTrip {
  import opened Wrappers
  import opened ArrayText

  function Tokens(xs: seq<int>): (r: seq<string>)
    ensures |r| == |xs| && forall k :: 0 <= k < |xs| ==> r[k] == FormatInt(xs[k])
  {
    if xs == [] then [] else [FormatInt(xs[0])] + Tokens(xs[1..])
  }

  function RenderVector(xs: seq<int>, c: char): string {
    Join(Tokens(xs), c)
  }

  function RenderRows(rows: seq<seq<int>>, c: char): (r: seq<string>)
    ensures |r| == |rows| && forall k :: 0 <= k < |rows| ==> r[k] == RenderVector(rows[k], c)
  {
    if rows == [] then [] else [RenderVector(rows[0], c)] + RenderRows(rows[1..], c)
  }

  function RenderMatrix(rows: seq<seq<int>>, rowSep: char, cellSep: char): string {
    Join(RenderRows(rows, cellSep), rowSep)
  }

  function RenderSheets(sheets: seq<seq<seq<int>>>): (r: seq<string>)
    ensures |r| == |sheets| && forall k :: 0 <= k < |sheets| ==> r[k] == RenderMatrix(sheets[k], ',', ':')
  {
    if sheets == [] then [] else [RenderMatrix(sheets[0], ',', ':')] + RenderSheets(sheets[1..])
  }

  /** A cube written with semicolons between sheets, commas between rows and colons between cells. */
  function RenderCube(sheets: seq<seq<seq<int>>>): string {
    Join(RenderSheets(sheets), ';')
  }

  /** An integer's text is non-empty and holds no separator and no white space. */
  lemma FormatIntPlain(n: int)
    ensures FormatInt(n) != []
    ensures forall k :: 0 <= k < |FormatInt(n)| ==> !IsSeparator(FormatInt(n)[k]) && !IsSpace(FormatInt(n)[k])
  {
    var t := FormatInt(n);
    if n < 0 {
      assert forall k :: 1 <= k < |t| ==> t[k] == Digits(-n)[k - 1];
    }
  }

  lemma {:induction false} NumericsOfTokens(xs: seq<int>)
    ensures Numerics(Tokens(xs)) == Success(xs)
  {
    if xs != [] {
      NumericOfToken(xs[0]);
      NumericsOfTokens(xs[1..]);
      assert Tokens(xs)[1..] == Tokens(xs[1..]);
      ConsSplit(xs);
    }
  }

  /** A separator or white-space character occurs in a rendered vector only as its separator. */
  lemma InRenderVector(xs: seq<int>, c: char, d: char)
    requires IsSeparator(d) || IsSpace(d)
    ensures d in RenderVector(xs, c) <==> d == c && |xs| >= 2
  {
    InJoin(Tokens(xs), c, d);
    forall k | 0 <= k < |xs|
      ensures d !in Tokens(xs)[k]
    {
      FormatIntPlain(xs[k]);
    }
  }

  lemma SplitRenderVector(xs: seq<int>, c: char)
    requires IsSeparator(c)
    ensures Split(RenderVector(xs, c), c) == Tokens(xs)
  {
    forall k | 0 <= k < |xs|
      ensures Tokens(xs)[k] != "" && c !in Tokens(xs)[k]
    {
      FormatIntPlain(xs[k]);
    }
    SplitOfJoin(Tokens(xs), c);
  }

  /** A vector written with any one separator reads back as that vector. */
  lemma VectorRoundTrip(xs: seq<int>, c: char)
    requires IsSeparator(c)
    ensures Parse(RenderVector(xs, c), 1) == Success(Vector(xs))
  {
    var data := RenderVector(xs, c);
    InRenderVector(xs, c, ';');
    InRenderVector(xs, c, ',');
    InRenderVector(xs, c, ':');
    NumericsOfTokens(xs);
    if |xs| >= 2 {
      SplitRenderVector(xs, c);
      assert VectorPieces(data) == Split(data, c);
    } else {
      forall k | 0 <= k < |data|
        ensures !IsSpace(data[k])
      {
        FormatIntPlain(xs[0]);
      }
      FieldsOfWord(data);
      assert VectorPieces(data) == Fields(data);
      if xs == [] { assert Tokens(xs) == []; } else { assert Tokens(xs) == [data]; }
    }
  }

  lemma {:induction false} RowsOfRendered(rows: seq<seq<int>>, c: char)
    requires IsSeparator(c)
    ensures Rows(RenderRows(rows, c), c) == Success(rows)
  {
    if rows != [] {
      SplitRenderVector(rows[0], c);
      NumericsOfTokens(rows[0]);
      RowsOfRendered(rows[1..], c);
      assert RenderRows(rows, c)[1..] == RenderRows(rows[1..], c);
      ConsSplit(rows);
    }
  }

  lemma {:induction false} SingletonsOfRendered(rows: seq<seq<int>>, c: char)
    requires forall k :: 0 <= k < |rows| ==> |rows[k]| == 1
    ensures Singletons(RenderRows(rows, c)) == Success(rows)
  {
    if rows != [] {
      var x := rows[0][0];
      var ps := RenderRows(rows, c);
      assert Tokens(rows[0]) == [FormatInt(x)];
      assert ps[0] == FormatInt(x);
      NumericOfToken(x);
      SingletonsOfRendered(rows[1..], c);
      assert ps[1..] == RenderRows(rows[1..], c);
      assert Singletons(ps) == Success([[x]] + rows[1..]);
      assert rows[0] == [x];
      assert [[x]] + rows[1..] == rows;
    }
  }

  /** Rendered non-empty rows are non-empty and hold no row separator. */
  lemma RenderedRowsPlain(rows: seq<seq<int>>, c: char, r: char)
    requires IsSeparator(c) && IsSeparator(r) && r != c
    requires forall k :: 0 <= k < |rows| ==> rows[k] != []
    ensures forall k :: 0 <= k < |rows| ==> RenderRows(rows, c)[k] != "" && r !in RenderRows(rows, c)[k]
  {
    forall k | 0 <= k < |rows|
      ensures RenderRows(rows, c)[k] != "" && r !in RenderRows(rows, c)[k]
    {
      InRenderVector(rows[k], c, r);
      FormatIntPlain(rows[k][0]);
      assert Tokens(rows[k])[0] != "";
      assert |RenderVector(rows[k], c)| >= |Tokens(rows[k])[0]| by {
        if |rows[k]| > 1 {
          assert RenderVector(rows[k], c) == Tokens(rows[k])[0] + [c] + Join(Tokens(rows[k])[1..], c);
        }
      }
    }
  }

  /** Which separators occur in a rendered matrix. */
  lemma InRenderMatrix(rows: seq<seq<int>>, r: char, c: char, d: char)
    requires IsSeparator(d) || IsSpace(d)
    ensures d in RenderMatrix(rows, r, c) <==>
      (d == r && |rows| >= 2) || (d == c && exists k :: 0 <= k < |rows| && |rows[k]| >= 2)
  {
    InJoin(RenderRows(rows, c), r, d);
    forall k | 0 <= k < |rows|
      ensures d in RenderRows(rows, c)[k] <==> d == c && |rows[k]| >= 2
    {
      InRenderVector(rows[k], c, d);
    }
  }

  /**
   * A non-empty matrix with non-empty rows, written with semicolons between rows
   * and `c` between cells, reads back as that matrix, except that a single row
   * of several cells written with commas is the ambiguous case.
   */
  lemma MatrixRoundTrip(rows: seq<seq<int>>, c: char)
    requires c == ',' || c == ':'
    requires rows != [] && forall k :: 0 <= k < |rows| ==> rows[k] != []
    ensures Parse(RenderMatrix(rows, ';', c), 2) ==
      if c == ',' && |rows| == 1 && |rows[0]| >= 2
      then Failure(Ambiguous(RenderMatrix(rows, ';', c)))
      else Success(Matrix(rows))
  {
    if |rows| == 1 {
      OneRowRoundTrip(rows[0], c);
      assert RenderMatrix(rows, ';', c) == RenderVector(rows[0], c);
      assert [rows[0]] == rows;
    } else {
      ManyRowsRoundTrip(rows, c);
    }
  }

  lemma OneRowRoundTrip(row: seq<int>, c: char)
    requires c == ',' || c == ':'
    requires row != []
    ensures Parse(RenderVector(row, c), 2) ==
      if c == ',' && |row| >= 2 then Failure(Ambiguous(RenderVector(row, c))) else Success(Matrix([row]))
  {
    var data := RenderVector(row, c);
    InRenderVector(row, c, ';');
    InRenderVector(row, c, ',');
    InRenderVector(row, c, ':');
    if |row| == 1 {
      assert Tokens(row) == [FormatInt(row[0])];
      assert data == FormatInt(row[0]);
      NumericOfToken(row[0]);
      assert SeparatorList(data) == [];
      MatrixScalarCase(data);
      assert [row[0]] == row;
    } else if c == ':' {
      assert SeparatorList(data) == [':'];
      MatrixColonCase(data);
      SplitRenderVector(row, c);
      NumericsOfTokens(row);
    } else {
      assert SeparatorList(data) == [','];
      MatrixCommaCase(data);
    }
  }

  lemma ManyRowsRoundTrip(rows: seq<seq<int>>, c: char)
    requires c == ',' || c == ':'
    requires |rows| >= 2 && forall k :: 0 <= k < |rows| ==> rows[k] != []
    ensures Parse(RenderMatrix(rows, ';', c), 2) == Success(Matrix(rows))
  {
    if exists k :: 0 <= k < |rows| && |rows[k]| >= 2 {
      WideRowsRoundTrip(rows, ';', c);
    } else {
      ColumnRoundTrip(rows, c);
    }
  }

  lemma TwoSeparators(data: string, r: char, c: char)
    requires (r == ';' && (c == ',' || c == ':')) || (r == ',' && c == ':')
    requires r in data && c in data
    requires ';' in data ==> ';' == r || ';' == c
    requires ',' in data ==> ',' == r || ',' == c
    requires ':' in data ==> ':' == r || ':' == c
    ensures SeparatorList(data) == [r, c]
  {
  }

  /** With both separators present, rows split on the higher one and cells on the lower one. */
  lemma WideRowsRoundTrip(rows: seq<seq<int>>, r: char, c: char)
    requires (r == ';' && (c == ',' || c == ':')) || (r == ',' && c == ':')
    requires |rows| >= 2 && forall k :: 0 <= k < |rows| ==> rows[k] != []
    requires exists k :: 0 <= k < |rows| && |rows[k]| >= 2
    ensures Parse(RenderMatrix(rows, r, c), 2) == Success(Matrix(rows))
  {
    var data := RenderMatrix(rows, r, c);
    RenderedRowsPlain(rows, c, r);
    SplitOfJoin(RenderRows(rows, c), r);
    InRenderMatrix(rows, r, c, ';');
    InRenderMatrix(rows, r, c, ',');
    InRenderMatrix(rows, r, c, ':');
    TwoSeparators(data, r, c);
    ParseRows(data);
    RowsOfRendered(rows, c);
  }

  lemma ColumnRoundTrip(rows: seq<seq<int>>, c: char)
    requires c == ',' || c == ':'
    requires |rows| >= 2 && forall k :: 0 <= k < |rows| ==> |rows[k]| == 1
    ensures Parse(RenderMatrix(rows, ';', c), 2) == Success(Matrix(rows))
  {
    var data := RenderMatrix(rows, ';', c);
    RenderedRowsPlain(rows, c, ';');
    SplitOfJoin(RenderRows(rows, c), ';');
    InRenderMatrix(rows, ';', c, ';');
    InRenderMatrix(rows, ';', c, ',');
    InRenderMatrix(rows, ';', c, ':');
    assert SeparatorList(data) == [';'];
    ParseColumn(data);
    SingletonsOfRendered(rows, c);
  }

  /** One rendered sheet reads back as its rows. */
  lemma SheetOfRendered(sheet: seq<seq<int>>)
    requires sheet != [] && forall k :: 0 <= k < |sheet| ==> sheet[k] != []
    ensures Rows(Split(RenderMatrix(sheet, ',', ':'), ','), ':') == Success(sheet)
  {
    RenderedRowsPlain(sheet, ':', ',');
    SplitOfJoin(RenderRows(sheet, ':'), ',');
    RowsOfRendered(sheet, ':');
  }

  lemma {:induction false} SheetsOfRendered(sheets: seq<seq<seq<int>>>)
    requires forall i :: 0 <= i < |sheets| ==> sheets[i] != []
    requires forall i, k :: 0 <= i < |sheets| && 0 <= k < |sheets[i]| ==> sheets[i][k] != []
    ensures Sheets(RenderSheets(sheets)) == Success(sheets)
  {
    if sheets != [] {
      var ps := RenderSheets(sheets);
      SheetOfRendered(sheets[0]);
      var tail := sheets[1..];
      assert forall i :: 0 <= i < |tail| ==> tail[i] == sheets[i + 1];
      SheetsOfRendered(tail);
      assert ps[0] == RenderMatrix(sheets[0], ',', ':') && ps[1..] == RenderSheets(tail);
      ConsSplit(sheets);
    }
  }

  /** A rendered sheet with rows is not empty and holds no semicolon. */
  lemma SheetPlain(sheet: seq<seq<int>>)
    requires sheet != [] && forall k :: 0 <= k < |sheet| ==> sheet[k] != []
    ensures RenderMatrix(sheet, ',', ':') != "" && ';' !in RenderMatrix(sheet, ',', ':')
  {
    RenderedRowsPlain(sheet, ':', ',');
    InRenderMatrix(sheet, ',', ':', ';');
    RenderedRowsPlain(sheet, ':', ';');
    var rs := RenderRows(sheet, ':');
    assert |Join(rs, ',')| >= |rs[0]| by {
      if |rs| > 1 { assert Join(rs, ',') == rs[0] + [','] + Join(rs[1..], ','); }
    }
  }

  /** A cube whose sheets and rows are non-empty reads back as that cube at dimension 3. */
  lemma CubeRoundTrip(sheets: seq<seq<seq<int>>>)
    requires forall i :: 0 <= i < |sheets| ==> sheets[i] != []
    requires forall i, k :: 0 <= i < |sheets| && 0 <= k < |sheets[i]| ==> sheets[i][k] != []
    ensures Parse(RenderCube(sheets), 3) == Success(Cube(sheets))
  {
    var rendered := RenderSheets(sheets);
    forall i | 0 <= i < |sheets|
      ensures rendered[i] != "" && ';' !in rendered[i]
    {
      SheetPlain(sheets[i]);
    }
    SplitOfJoin(rendered, ';');
    SheetsOfRendered(sheets);
    ParseCube(RenderCube(sheets));
  }
}
