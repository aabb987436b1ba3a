/**
 * The field record of a generated class and its inference from an XSD
 * attribute declaration (lib/bb/var.rb).
 *
 * A Var is a value fixed when it is built.  An attribute declaration becomes
 * either a Var or one of two class-level trait signals: `cellType` (the type
 * of the cells of the element's array text) and `delims` (its separators).
 */
module BbVar {
  import opened Wrappers
  import opened Xsd

  /** Where the value of a field is kept in the XML. */
  datatype Storage = AttributeStorage | SubelementStorage | TextStorage | ParametersStorage

  datatype Var = Var(
    name: string,
    varType: Option<string>,      // a scalar type name, a class name, or nil
    references: Option<string>,   // the class named by an `_id` field
    xmlName: Option<string>,
    storage: Storage,
    collection: Option<bool>,     // nil unless the field comes from a sub-element
    default: Option<string>)      // the default written as a literal

  // ---------------------------------------------------------------------
  // The `_id` reference detection of Var#initialize
  // ---------------------------------------------------------------------

  /** The length of the first line of `s`, up to its first newline. */
  function LineEnd(s: string): (n: nat)
    ensures n <= |s| && (n < |s| ==> s[n] == '\n')
    ensures forall k :: 0 <= k < n ==> s[k] != '\n'
  {
    if s == [] || s[0] == '\n' then 0 else 1 + LineEnd(s[1..])
  }

  predicate EndsWithId(t: string) {
    |t| >= 3 && t[|t| - 3..] == "_id"
  }

  /**
   * The capture of `/(.*)_id$/`: `.` stops at newlines and `$` matches at the
   * end of every line, so the match is the first line of the name that ends
   * in `_id`, and the capture is that line without its `_id`.
   */
  function ReferenceName(name: string): (r: Option<string>)
    ensures r.Some? ==> forall k :: 0 <= k < |r.value| ==> r.value[k] != '\n'
    decreases |name|
  {
    var n := LineEnd(name);
    var line := name[..n];
    if EndsWithId(line) then Some(line[..n - 3])
    else if n < |name| then ReferenceName(name[n + 1..])
    else None
  }

  /** `Var.new`: a field record, its reference derived from its name. */
  function NewVar(name: string, varType: Option<string>, xmlName: Option<string>,
                  storage: Storage, collection: Option<bool>, default: Option<string>): (v: Var)
    ensures v.name == name && v.varType == varType && v.xmlName == xmlName
    ensures v.storage == storage && v.collection == collection && v.default == default
    ensures v.references == ReferenceName(name)
  {
    Var(name, varType, ReferenceName(name), xmlName, storage, collection, default)
  }

  /** For a one-line name, a reference exists exactly when the name ends in `_id`, and it is the rest of the name. */
  lemma SingleLineReference(name: string)
    requires forall k :: 0 <= k < |name| ==> name[k] != '\n'
    ensures NewVar(name, None, None, AttributeStorage, None, None).references.Some? <==> EndsWithId(name)
    ensures ReferenceName(name).Some? ==> name == ReferenceName(name).value + "_id"
  {
    assert LineEnd(name) == |name|;
    assert name[..|name|] == name;
  }

  /** The match is greedy: `b + "_id"` references all of `b`, even when `b` holds `_id` itself. */
  lemma IdNameReferences(b: string)
    requires forall k :: 0 <= k < |b| ==> b[k] != '\n'
    ensures ReferenceName(b + "_id") == Some(b)
  {
    var name := b + "_id";
    forall k | 0 <= k < |name| ensures name[k] != '\n' {
      if k < |b| { assert name[k] == b[k]; }
    }
    SingleLineReference(name);
    assert name[|name| - 3..] == "_id";
    assert name[..|name| - 3] == b;
  }

  /** A later line is looked at only when the first one does not end in `_id`. */
  lemma NextLineReference(line: string, rest: string)
    requires forall k :: 0 <= k < |line| ==> line[k] != '\n'
    requires !EndsWithId(line)
    ensures ReferenceName(line + "\n" + rest) == ReferenceName(rest)
  {
    var s := line + "\n" + rest;
    assert s[|line|] == '\n';
    assert LineEnd(s) == |line| by {
      LineEndOfLine(line, "\n" + rest);
    }
    assert s[..|line|] == line;
    assert s[|line| + 1..] == rest;
  }

  lemma {:induction false} LineEndOfLine(line: string, rest: string)
    requires forall k :: 0 <= k < |line| ==> line[k] != '\n'
    requires rest != [] && rest[0] == '\n'
    ensures LineEnd(line + rest) == |line|
  {
    if line != [] {
      assert (line + rest)[1..] == line[1..] + rest;
      LineEndOfLine(line[1..], rest);
    } else {
      assert line + rest == rest;
    }
  }

  // ---------------------------------------------------------------------
  // Scalar types
  // ---------------------------------------------------------------------

  /** VAR_TYPE_FROM_SIMPLE_XS_TYPE: the XSD types read as scalars. */
  const ScalarTypes: map<string, string> :=
    map["xs:string" := "String", "xs:integer" := "int", "xs:boolean" := "Boolean", "xs:decimal" := "Number"]

  /** The table lookup; nil for a missing or unmapped type. */
  function ScalarType(xsType: Option<string>): (r: Option<string>)
    ensures r.Some? <==> xsType.Some? && xsType.value in ScalarTypes
    ensures r.Some? ==> r.value == ScalarTypes[xsType.value]
  {
    if xsType.Some? && xsType.value in ScalarTypes then Some(ScalarTypes[xsType.value]) else None
  }

  // ---------------------------------------------------------------------
  // String#inspect, and reading its result back
  // ---------------------------------------------------------------------

  function HexDigit(d: nat): char
    requires d < 16
  {
    "0123456789ABCDEF"[d]
  }

  function HexValue(c: char): Option<nat> {
    if '0' <= c <= '9' then Some(c as nat - '0' as nat)
    else if 'A' <= c <= 'F' then Some(c as nat - 'A' as nat + 10)
    else None
  }

  /** The ASCII control characters, printed as `\u00HH` unless they have a letter escape. */
  predicate IsControl(c: char) {
    c < ' ' || c == '\U{007F}'
  }

  /** The letter escapes of String#inspect. */
  function LetterEscape(c: char): Option<char> {
    match c
    case '\n' => Some('n')
    case '\r' => Some('r')
    case '\t' => Some('t')
    case '\U{000C}' => Some('f')
    case '\U{000B}' => Some('v')
    case '\U{0008}' => Some('b')
    case '\U{0007}' => Some('a')
    case '\U{001B}' => Some('e')
    case _ => None
  }

  /** How one character is written inside the quotes, given the character after it. */
  function EscapeChar(c: char, next: Option<char>): string {
    if c == '"' || c == '\\' then ['\\', c]
    else if c == '#' && next.Some? && (next.value == '{' || next.value == '$' || next.value == '@') then "\\#"
    else if LetterEscape(c).Some? then ['\\', LetterEscape(c).value]
    else if IsControl(c) then "\\u00" + [HexDigit(c as nat / 16), HexDigit(c as nat % 16)]
    else [c]
  }

  function EscapeBody(s: string): string {
    if s == [] then []
    else EscapeChar(s[0], if |s| > 1 then Some(s[1]) else None) + EscapeBody(s[1..])
  }

  /** `s.inspect`: the text as a double-quoted literal. */
  function Quote(s: string): (q: string)
    ensures |q| >= 2 && q[0] == '"' && q[|q| - 1] == '"'
  {
    "\"" + EscapeBody(s) + "\""
  }

  function Prepend(c: char, r: Option<string>): Option<string> {
    if r.Some? then Some([c] + r.value) else None
  }

  /** The character a backslash followed by `e` stands for, for the one-letter escapes. */
  function SimpleUnescape(e: char): Option<char> {
    match e
    case '"' => Some('"')
    case '\\' => Some('\\')
    case '#' => Some('#')
    case 'n' => Some('\n')
    case 'r' => Some('\r')
    case 't' => Some('\t')
    case 'f' => Some('\U{000C}')
    case 'v' => Some('\U{000B}')
    case 'b' => Some('\U{0008}')
    case 'a' => Some('\U{0007}')
    case 'e' => Some('\U{001B}')
    case _ => None
  }

  /** The characters a literal's body stands for; None for a malformed body. */
  function Unescape(t: string): Option<string>
    decreases |t|
  {
    if t == [] then Some([])
    else if t[0] == '"' then None
    else if t[0] != '\\' then Prepend(t[0], Unescape(t[1..]))
    else if |t| < 2 then None
    else if t[1] == 'u' then
      if |t| >= 6 && t[2] == '0' && t[3] == '0' && HexValue(t[4]).Some? && HexValue(t[5]).Some? then
        Prepend((HexValue(t[4]).value * 16 + HexValue(t[5]).value) as char, Unescape(t[6..]))
      else None
    else if SimpleUnescape(t[1]).Some? then Prepend(SimpleUnescape(t[1]).value, Unescape(t[2..]))
    else None
  }

  /** The text a double-quoted literal stands for. */
  function Unquote(q: string): Option<string> {
    if |q| >= 2 && q[0] == '"' && q[|q| - 1] == '"' then Unescape(q[1..|q| - 1]) else None
  }

  lemma HexRoundTrip(d: nat)
    requires d < 16
    ensures HexValue(HexDigit(d)) == Some(d)
  {
  }

  /** A backslash and a one-letter escape read back as the character it stands for. */
  lemma UnescapeTwo(e: char, rest: string)
    requires e != 'u' && SimpleUnescape(e).Some?
    ensures Unescape(['\\', e] + rest) == Prepend(SimpleUnescape(e).value, Unescape(rest))
  {
    var t := ['\\', e] + rest;
    assert t[0] == '\\' && t[1] == e && t[2..] == rest;
  }

  /** A `\u00HH` escape reads back as the character with that code. */
  lemma UnescapeHex(hi: nat, lo: nat, rest: string)
    requires hi < 16 && lo < 16
    ensures Unescape("\\u00" + [HexDigit(hi), HexDigit(lo)] + rest) == Prepend((hi * 16 + lo) as char, Unescape(rest))
  {
    HexRoundTrip(hi);
    HexRoundTrip(lo);
    var t := "\\u00" + [HexDigit(hi), HexDigit(lo)] + rest;
    assert t[0] == '\\' && t[1] == 'u' && t[2] == '0' && t[3] == '0';
    assert t[4] == HexDigit(hi) && t[5] == HexDigit(lo) && t[6..] == rest;
  }

  /** A character that needs no escape reads back as itself. */
  lemma UnescapePlain(c: char, rest: string)
    requires c != '"' && c != '\\'
    ensures Unescape([c] + rest) == Prepend(c, Unescape(rest))
  {
    assert ([c] + rest)[1..] == rest;
  }

  /** One escaped character is read back as itself, whatever follows it. */
  lemma UnescapeStep(c: char, next: Option<char>, rest: string)
    ensures Unescape(EscapeChar(c, next) + rest) == Prepend(c, Unescape(rest))
  {
    if c == '"' || c == '\\' || (c == '#' && next.Some? && (next.value == '{' || next.value == '$' || next.value == '@')) {
      assert EscapeChar(c, next) == ['\\', c];
      UnescapeTwo(c, rest);
    } else if LetterEscape(c).Some? {
      UnescapeTwo(LetterEscape(c).value, rest);
    } else if IsControl(c) {
      var hi, lo := c as nat / 16, c as nat % 16;
      UnescapeHex(hi, lo, rest);
      assert (hi * 16 + lo) as char == c;
    } else {
      UnescapePlain(c, rest);
    }
  }

  lemma {:induction false} UnescapeBody(s: string)
    ensures Unescape(EscapeBody(s)) == Some(s)
  {
    if s != [] {
      UnescapeBody(s[1..]);
      UnescapeStep(s[0], if |s| > 1 then Some(s[1]) else None, EscapeBody(s[1..]));
      ConsSplit(s);
    }
  }

  /** Quoting loses nothing: the literal reads back as the original text. */
  lemma QuoteRoundTrip(s: string)
    ensures Unquote(Quote(s)) == Some(s)
  {
    var q := Quote(s);
    assert q[1..|q| - 1] == EscapeBody(s);
    UnescapeBody(s);
  }

  /** Different texts are quoted differently. */
  lemma QuoteInjective(s: string, t: string)
    requires Quote(s) == Quote(t)
    ensures s == t
  {
    QuoteRoundTrip(s);
    QuoteRoundTrip(t);
  }

  // ---------------------------------------------------------------------
  // Var.from_xs_attribute
  // ---------------------------------------------------------------------

  /** What one attribute declaration turns into. */
  datatype AttrOutcome =
    | FieldVar(v: Var)
    | CellTypeSignal(cellType: string, cellsAreIds: bool)
    | DelimsSignal(delims: string)

  /** `class` is reserved in the generated code and is renamed. */
  function VarName(xmlName: string): (r: string)
    ensures r != "class"
    ensures xmlName != "class" ==> r == xmlName
  {
    if xmlName == "class" then "class_name" else xmlName
  }

  /** The declared XSD type of an attribute: the `type` attribute, else the base of the inline restriction. */
  function XsType(a: Attribute): Option<string> {
    DeclaredType(a.typeName, a.restriction)
  }

  /** The default, recorded only for an optional attribute. */
  function OptionalDefault(a: Attribute): (r: Option<string>)
    ensures r.Some? <==> a.use == Some("optional") && a.default.Some?
    ensures r.Some? ==> r == a.default
  {
    if a.use == Some("optional") && a.default.Some? then a.default else None
  }

  predicate IsTrait(name: string) {
    name == "cellType" || name == "delims"
  }

  function FromXsAttribute(a: Attribute): (r: Result<AttrOutcome, Error>)
    // errors: no type at all, or a trait without a default
    ensures r.Failure? <==> XsType(a).None? || (IsTrait(a.name) && OptionalDefault(a).None?)
    ensures r.Failure? && XsType(a).None? ==> r.error == NoTypeDeclaration(a.name)
    ensures r.Failure? && XsType(a).Some? ==>
      r.error == if a.name == "cellType" then CellTypeWithoutDefault else DelimsWithoutDefault
    // a trait never becomes a field
    ensures r.Success? ==> (r.value.FieldVar? <==> !IsTrait(a.name))
    ensures r.Success? && r.value.CellTypeSignal? ==> a.name == "cellType"
    ensures r.Success? && r.value.DelimsSignal? ==> a.name == "delims" && Some(r.value.delims) == OptionalDefault(a)
    // the shape of every field
    ensures r.Success? && r.value.FieldVar? ==>
      var v := r.value.v;
      && v.name == VarName(a.name)
      && v.xmlName == Some(a.name)
      && v.references == ReferenceName(v.name)
      && v.varType == ScalarType(XsType(a))
      && v.storage == AttributeStorage
      && v.collection == None
      && v.default.Some? == OptionalDefault(a).Some?
      && (v.varType != Some("String") ==> v.default == OptionalDefault(a))
  {
    var name := VarName(a.name);
    var xsType := XsType(a);
    if xsType.None? then Failure(NoTypeDeclaration(a.name))
    else
      var varType := ScalarType(xsType);
      var dflt := OptionalDefault(a);
      if name == "cellType" then
        if dflt.None? then Failure(CellTypeWithoutDefault)
        else if ScalarType(dflt).Some? then Success(CellTypeSignal(ScalarType(dflt).value, false))
        else Success(CellTypeSignal(dflt.value, true))
      else if name == "delims" then
        if dflt.None? then Failure(DelimsWithoutDefault) else Success(DelimsSignal(dflt.value))
      else
        var stored := if varType == Some("String") && dflt.Some? then Some(Quote(dflt.value)) else dflt;
        Success(FieldVar(NewVar(name, varType, Some(a.name), AttributeStorage, None, stored)))
  }

  /** A cellType default found in the table signals its scalar type; any other default names a class whose ids fill the cells. */
  lemma CellTypeOfDefault(a: Attribute)
    requires a.name == "cellType" && XsType(a).Some? && OptionalDefault(a).Some?
    ensures var d := OptionalDefault(a).value;
      FromXsAttribute(a) == Success(
        if d in ScalarTypes then CellTypeSignal(ScalarTypes[d], false) else CellTypeSignal(d, true))
  {
  }

  /** A String field keeps its default as a literal that reads back as the declared default. */
  lemma StringDefaultQuoted(a: Attribute)
    requires FromXsAttribute(a).Success? && FromXsAttribute(a).value.FieldVar?
    requires FromXsAttribute(a).value.v.varType == Some("String")
    requires OptionalDefault(a).Some?
    ensures Unquote(FromXsAttribute(a).value.v.default.value) == OptionalDefault(a)
  {
    QuoteRoundTrip(OptionalDefault(a).value);
  }
}
