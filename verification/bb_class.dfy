/**
 * The class builder (lib/bb/class.rb): one generated class per top-level
 * element, filled with fields in document order from the element's complex
 * type (attributes, attribute wildcards, model groups, mixed text) or from
 * its simple type.
 *
 * The pure functions below say what each `populate_*` step does to the
 * builder's state (a ClassState value, with Result for the errors the steps
 * raise); the ClassDef class at the end performs the steps in place and is
 * proved to agree with them.
 */
module BbClass {
  import opened Wrappers
  import opened Xsd
  import opened BbVar
  import ArrayText

  /** A class-level constant of the generated class. */
  datatype Const = Const(name: string, value: Option<string>)

  // ---------------------------------------------------------------------
  // Names
  // ---------------------------------------------------------------------

  /** ASCII upper case; other characters are kept. */
  function Upcase(c: char): char {
    if 'a' <= c <= 'z' then (c as int - 32) as char else c
  }

  function DowncaseChar(c: char): char {
    if 'A' <= c <= 'Z' then (c as int + 32) as char else c
  }

  /** String#downcase on ASCII letters: no upper-case letter is left, and every other character is kept. */
  function Downcase(s: string): (r: string)
    ensures |r| == |s|
    ensures forall k :: 0 <= k < |r| ==> !('A' <= r[k] <= 'Z')
    ensures forall k :: 0 <= k < |s| && !('A' <= s[k] <= 'Z') ==> r[k] == s[k]
    ensures forall k :: 0 <= k < |s| && 'A' <= s[k] <= 'Z' ==> Upcase(r[k]) == s[k]
  {
    seq(|s|, k requires 0 <= k < |s| => DowncaseChar(s[k]))
  }

  /**
   * `Class.fix_name`: the first character in upper case, the rest kept.
   * `\A.` matches no newline, so a name starting with one is kept whole.
   */
  function FixName(s: string): (r: string)
    ensures |r| == |s|
    ensures s != [] ==> r[1..] == s[1..]
    ensures s != [] && s[0] != '\n' ==> r[0] == Upcase(s[0]) && !('a' <= r[0] <= 'z')
    ensures s == [] || s[0] == '\n' ==> r == s
  {
    if s == [] || s[0] == '\n' then s else [Upcase(s[0])] + s[1..]
  }

  /** Fixing a fixed name changes nothing. */
  lemma FixNameIdempotent(s: string)
    ensures FixName(FixName(s)) == FixName(s)
  {
    if s != [] && s[0] != '\n' {
      assert FixName(s)[0] == Upcase(s[0]);
      assert Upcase(Upcase(s[0])) == Upcase(s[0]);
    }
  }

  /** Two names fix to the same name exactly when they agree after the first character and their first characters upcase alike. */
  lemma FixNameEqual(s: string, t: string)
    requires s != [] && t != [] && s[0] != '\n' && t[0] != '\n'
    ensures FixName(s) == FixName(t) <==> Upcase(s[0]) == Upcase(t[0]) && s[1..] == t[1..]
  {
    if Upcase(s[0]) == Upcase(t[0]) && s[1..] == t[1..] {
      assert FixName(s) == [Upcase(s[0])] + s[1..];
    }
  }

  // ---------------------------------------------------------------------
  // String#to_i, for maxOccurs
  // ---------------------------------------------------------------------

  /** `s` without its leading white space. */
  function SkipSpace(s: string): (r: string)
    ensures r == [] || !ArrayText.IsSpace(r[0])
    ensures |r| <= |s| && r == s[|s| - |r|..]
  {
    if s != [] && ArrayText.IsSpace(s[0]) then SkipSpace(s[1..]) else s
  }

  /**
   * The digits of the run that starts `t`, where one underscore between two
   * digits is skipped; a second underscore in a row, or any other character,
   * ends the run.
   */
  function RunDigits(t: string): (r: string)
    ensures |r| <= |t|
    ensures forall k :: 0 <= k < |r| ==> ArrayText.IsDigit(r[k])
    ensures t == [] || !ArrayText.IsDigit(t[0]) ==> r == []
    decreases |t|
  {
    if t == [] || !ArrayText.IsDigit(t[0]) then []
    else if |t| >= 3 && t[1] == '_' && ArrayText.IsDigit(t[2]) then [t[0]] + RunDigits(t[2..])
    else [t[0]] + RunDigits(t[1..])
  }

  /** `t` without the `0d` (or `0D`) prefix that base 10 allows. */
  function Unprefixed(t: string): (r: string)
    ensures t == [] || t[0] != '0' ==> r == t
  {
    if |t| >= 2 && t[0] == '0' && (t[1] == 'd' || t[1] == 'D') then t[2..] else t
  }

  /** The value of the digit run after an optional `0d` prefix. */
  function LeadingValue(t: string): nat {
    ArrayText.DigitsValue(RunDigits(Unprefixed(t)))
  }

  /** Whether `t` starts with a digit or a sign. */
  predicate StartsNumber(t: string) {
    t != [] && (ArrayText.IsDigit(t[0]) || t[0] == '-' || t[0] == '+')
  }

  /**
   * `String#to_i`: leading white space, an optional sign, an optional `0d`
   * prefix, then as many decimal digits as follow, single underscores between
   * them allowed; 0 when there are none.
   */
  function ToI(s: string): (r: int)
    ensures !StartsNumber(SkipSpace(s)) ==> r == 0
  {
    var t := SkipSpace(s);
    if t != [] && t[0] == '-' then -(LeadingValue(t[1..]) as int)
    else if t != [] && t[0] == '+' then LeadingValue(t[1..])
    else LeadingValue(t)
  }

  /** A run of plain digits is read whole. */
  lemma {:induction false} RunDigitsOfDigits(t: string)
    requires forall k :: 0 <= k < |t| ==> ArrayText.IsDigit(t[k])
    ensures RunDigits(t) == t
  {
    if t != [] {
      RunDigitsOfDigits(t[1..]);
      ConsSplit(t);
    }
  }

  /** One underscore between two digit runs is skipped. */
  lemma {:induction false} RunDigitsUnderscore(a: string, b: string)
    requires a != [] && forall k :: 0 <= k < |a| ==> ArrayText.IsDigit(a[k])
    requires b != [] && forall k :: 0 <= k < |b| ==> ArrayText.IsDigit(b[k])
    ensures RunDigits(a + "_" + b) == a + b
  {
    var t := a + "_" + b;
    assert t[0] == a[0];
    if |a| == 1 {
      RunDigitsSkipsUnderscore(a[0], b);
      assert t == [a[0]] + "_" + b;
      assert a + b == [a[0]] + b;
    } else {
      assert t[1] == a[1] && t[1..] == a[1..] + "_" + b;
      assert RunDigits(t) == [a[0]] + RunDigits(t[1..]);
      RunDigitsUnderscore(a[1..], b);
      assert a + b == [a[0]] + (a[1..] + b);
    }
  }

  /** A single digit, an underscore, then digits: the underscore is skipped. */
  lemma RunDigitsSkipsUnderscore(d: char, b: string)
    requires ArrayText.IsDigit(d)
    requires b != [] && forall k :: 0 <= k < |b| ==> ArrayText.IsDigit(b[k])
    ensures RunDigits([d] + "_" + b) == [d] + b
  {
    var t := [d] + "_" + b;
    assert t[1] == '_' && t[2] == b[0] && t[2..] == b;
    RunDigitsOfDigits(b);
  }

  /** Two underscores in a row end the run. */
  lemma {:induction false} RunDigitsDoubleUnderscore(a: string, b: string)
    requires a != [] && forall k :: 0 <= k < |a| ==> ArrayText.IsDigit(a[k])
    ensures RunDigits(a + "__" + b) == a
  {
    var t := a + "__" + b;
    if |a| == 1 {
      assert t[1] == '_' && t[2] == '_';
      assert t[1..] == "__" + b;
      assert a == [a[0]];
    } else {
      RunDigitsDoubleUnderscore(a[1..], b);
      assert t[1] == a[1] && t[1..] == a[1..] + "__" + b;
      ConsSplit(a);
    }
  }

  /** Text that starts with no white space is kept whole. */
  lemma SkipNoSpace(s: string)
    requires s != [] && !ArrayText.IsSpace(s[0])
    ensures SkipSpace(s) == s
  {
  }

  lemma LeadingValueOfDecimal(t: string)
    requires ArrayText.IsDecimal(t)
    ensures LeadingValue(t) == ArrayText.DigitsValue(t)
  {
    assert Unprefixed(t) == t;
    RunDigitsOfDigits(t);
  }

  /** A decimal reads back as its value. */
  lemma ToIOfDecimal(t: string)
    requires ArrayText.IsDecimal(t)
    ensures ToI(t) == ArrayText.DigitsValue(t)
  {
    SkipNoSpace(t);
    LeadingValueOfDecimal(t);
  }

  /** A decimal preceded by a minus sign reads back as its negated value. */
  lemma ToIOfNegatedDecimal(t: string)
    requires ArrayText.IsDecimal(t)
    ensures ToI("-" + t) == -(ArrayText.DigitsValue(t) as int)
  {
    var s := "-" + t;
    SkipNoSpace(s);
    assert s[0] == '-' && s[1..] == t;
    assert ToI(s) == -(LeadingValue(t) as int);
    LeadingValueOfDecimal(t);
  }

  /** The base-10 prefix `0d` is skipped: `"0d12".to_i` is 12. */
  lemma ToIOfPrefixed(t: string)
    requires ArrayText.IsDecimal(t)
    ensures ToI("0d" + t) == ArrayText.DigitsValue(t)
  {
    var s := "0d" + t;
    SkipNoSpace(s);
    assert Unprefixed(s) == t;
    RunDigitsOfDigits(t);
  }

  /** Digit groups joined by single underscores read as one number: `"1_000".to_i` is 1000. */
  lemma ToIOfUnderscored(a: string, b: string)
    requires ArrayText.IsDecimal(a)
    requires b != [] && forall k :: 0 <= k < |b| ==> ArrayText.IsDigit(b[k])
    ensures forall k :: 0 <= k < |a + b| ==> ArrayText.IsDigit((a + b)[k])
    ensures ToI(a + "_" + b) == ArrayText.DigitsValue(a + b)
  {
    var s := a + "_" + b;
    assert s[0] == a[0];
    SkipNoSpace(s);
    assert Unprefixed(s) == s by {
      if a[0] == '0' { assert s[1] == '_'; }
    }
    RunDigitsUnderscore(a, b);
  }

  /** A doubled underscore ends the number: `"1__2".to_i` is 1. */
  lemma ToIOfDoubleUnderscore(a: string, b: string)
    requires ArrayText.IsDecimal(a)
    ensures ToI(a + "__" + b) == ArrayText.DigitsValue(a)
  {
    var s := a + "__" + b;
    assert s[0] == a[0];
    SkipNoSpace(s);
    assert Unprefixed(s) == s by {
      if a[0] == '0' { assert s[1] == '_'; }
    }
    RunDigitsDoubleUnderscore(a, b);
  }

  /** An integer's canonical text reads back as that integer. */
  lemma ToIOfFormatInt(n: int)
    ensures ToI(ArrayText.FormatInt(n)) == n
  {
    var m: nat := if n < 0 then -n else n;
    ArrayText.DigitsValueOfDigits(m);
    if n < 0 {
      ToIOfNegatedDecimal(ArrayText.Digits(m));
    } else {
      ToIOfDecimal(ArrayText.Digits(m));
    }
  }

  /** Whether a sub-element field is a collection; nil when maxOccurs is absent. */
  function IsCollection(maxOccurs: Option<string>): (r: Option<bool>)
    ensures r.None? <==> maxOccurs.None?
  {
    if maxOccurs.None? then None
    else Some(maxOccurs.value == "unbounded" || ToI(maxOccurs.value) > 1)
  }

  /** A numeric maxOccurs makes a collection exactly when it exceeds one. */
  lemma CollectionOfCount(n: int)
    ensures IsCollection(Some(ArrayText.FormatInt(n))) == Some(n > 1)
  {
    ToIOfFormatInt(n);
    var t := ArrayText.FormatInt(n);
    if n < 0 {
      assert t[0] == '-';
    } else {
      assert ArrayText.IsDigit(t[0]);
    }
    assert t != "unbounded";
  }

  /** A `maxOccurs` written with an underscore, such as `1_0`, counts by its digits. */
  lemma CollectionOfUnderscored(a: string, b: string)
    requires ArrayText.IsDecimal(a)
    requires b != [] && forall k :: 0 <= k < |b| ==> ArrayText.IsDigit(b[k])
    ensures IsCollection(Some(a + "_" + b)) == Some(ArrayText.DigitsValue(a + b) > 1)
  {
    ToIOfUnderscored(a, b);
    assert (a + "_" + b)[0] == a[0];
  }

  /** A `maxOccurs` with the base-10 prefix, such as `0d5`, counts by its digits. */
  lemma CollectionOfPrefixed(t: string)
    requires ArrayText.IsDecimal(t)
    ensures IsCollection(Some("0d" + t)) == Some(ArrayText.DigitsValue(t) > 1)
  {
    ToIOfPrefixed(t);
    assert ("0d" + t)[0] == '0';
  }

  // ---------------------------------------------------------------------
  // The fields the builder synthesises
  // ---------------------------------------------------------------------

  /** `populate_var_from_subelement`: a field holding the referenced element. */
  function SubelementVar(ref: string, maxOccurs: Option<string>): (v: Var)
    ensures v.name == Downcase(ref) && v.varType == Some(FixName(ref)) && v.xmlName == Some(ref)
    ensures v.storage == SubelementStorage && v.default.None?
    ensures v.collection == Some(true) <==> maxOccurs.Some? && (maxOccurs.value == "unbounded" || ToI(maxOccurs.value) > 1)
  {
    NewVar(Downcase(ref), Some(FixName(ref)), Some(ref), SubelementStorage, IsCollection(maxOccurs), None)
  }

  /** `populate_parameters_var`: the object built from a `parameters` block. */
  function ParametersVar(): (v: Var)
    ensures v.name == "parameters" && v.varType == Some("Object") && v.xmlName == Some("parameters")
    ensures v.storage == ParametersStorage && v.default == Some("{}") && v.collection.None?
  {
    NewVar("parameters", Some("Object"), Some("parameters"), ParametersStorage, None, Some("{}"))
  }

  /** The field a group element with a `ref` contributes. */
  function RefVar(ref: string, maxOccurs: Option<string>): (v: Var)
    ensures v.storage == (if ref == "parameters" then ParametersStorage else SubelementStorage)
  {
    if ref == "parameters" then ParametersVar() else SubelementVar(ref, maxOccurs)
  }

  /**
   * `populate_text_var`: the field holding the element's text.  Without
   * delims it is a plain string; with no delimiters it is one cell of the
   * cell type; with delimiters it is an array.
   */
  function TextVar(dim: Option<nat>, cellType: Option<string>): (v: Var)
    ensures v.storage == TextStorage && v.xmlName.None? && v.collection.None? && v.default.None?
    ensures dim.None? ==> v.name == "text" && v.varType == Some("String")
    ensures dim == Some(0) ==> v.name == "value" && v.varType == cellType
    ensures dim.Some? && dim.value > 0 ==> v.name == "cells" && v.varType == Some("Array")
  {
    match dim
    case None => NewVar("text", Some("String"), None, TextStorage, None, None)
    case Some(d) =>
      if d == 0 then NewVar("value", cellType, None, TextStorage, None, None)
      else NewVar("cells", Some("Array"), None, TextStorage, None, None)
  }

  /** `populate_vars_from_simple_type`: the one text field of an element without a complex type. */
  function SimpleTypeVar(e: Element): (r: Result<Var, Error>)
    ensures r.Failure? <==> (e.typeName.None? && e.restriction.None?) || ScalarType(TextXsType(e)).None?
    ensures r.Success? ==> r.value.name == "text" && r.value.storage == TextStorage
    ensures r.Success? ==> r.value.varType == ScalarType(TextXsType(e)) && r.value.varType.Some?
  {
    if e.typeName.None? && e.restriction.None? then Failure(MissingRestriction(e.name))
    else
      var xsType := TextXsType(e);
      var t := ScalarType(xsType);
      if t.None? then Failure(NoTextType(xsType))
      else Success(NewVar("text", t, None, TextStorage, None, None))
  }

  /** The XSD type of a simple element: its `type`, else its restriction's base. */
  function TextXsType(e: Element): Option<string> {
    DeclaredType(e.typeName, e.restriction)
  }

  // ---------------------------------------------------------------------
  // The builder's state and its steps
  // ---------------------------------------------------------------------

  /** Everything a class holds. */
  datatype ClassState = ClassState(
    name: Option<string>,
    xmlName: Option<string>,
    packageName: Option<string>,
    vars: seq<Var>,
    consts: seq<Const>,
    cellType: Option<string>,
    cellsAreIds: bool,
    referenced: bool,
    refName: Option<string>,
    dim: Option<nat>,
    delims: Option<string>,
    anyAttr: bool)

  /** The traits are consistent: `dim` is set with `delims` and is its size; cells of ids have a type. */
  predicate TraitsValid(st: ClassState) {
    && (st.dim.Some? <==> st.delims.Some?)
    && (st.dim.Some? ==> st.dim.value == |st.delims.value|)
    && (st.cellsAreIds ==> st.cellType.Some?)
  }

  /** The parts of a class the field-building steps never touch. */
  predicate SameIdentity(st: ClassState, st': ClassState) {
    && st'.name == st.name && st'.xmlName == st.xmlName && st'.packageName == st.packageName
    && st'.consts == st.consts && st'.referenced == st.referenced && st'.refName == st.refName
  }

  /** `Class.new`: a class without fields, traits or references. */
  function Fresh(name: Option<string>): (st: ClassState)
    ensures st.vars == [] && st.consts == [] && st.cellType.None? && st.dim.None? && st.delims.None?
    ensures !st.cellsAreIds && !st.referenced && st.refName.None? && !st.anyAttr
    ensures st.name.Some? <==> name.Some?
    ensures name.Some? ==> st.name.value == FixName(name.value)
    ensures TraitsValid(st)
  {
    ClassState(if name.Some? then Some(FixName(name.value)) else None, None, None, [], [], None, false, false, None, None, None, false)
  }

  /** The field an attribute declaration contributes, if it is not a trait. */
  function AttrFields(a: Attribute): seq<Var> {
    var r := FromXsAttribute(a);
    if r.Success? && r.value.FieldVar? then [r.value.v] else []
  }

  /**
   * `populate_var_from_attr`: a field is appended; a trait is recorded, and
   * a trait recorded before may be declared again only with the same value.
   */
  function MergeAttr(st: ClassState, a: Attribute): (r: Result<ClassState, Error>)
    ensures r.Failure? <==>
      var o := FromXsAttribute(a);
      || o.Failure?
      || (o.value.CellTypeSignal? && st.cellType.Some? && st.cellType.value != o.value.cellType)
      || (o.value.DelimsSignal? && st.dim.Some? && st.delims != Some(o.value.delims))
    ensures r.Success? ==> SameIdentity(st, r.value) && r.value.anyAttr == st.anyAttr
    ensures r.Success? ==> r.value.vars == st.vars + AttrFields(a)
    ensures r.Success? && TraitsValid(st) ==> TraitsValid(r.value)
    ensures r.Success? && st.cellType.Some? ==> r.value.cellType == st.cellType
    ensures r.Success? && TraitsValid(st) && st.delims.Some? ==> r.value.delims == st.delims
    // the new state, by what the attribute declares
    ensures r.Success? && FromXsAttribute(a).Success? && FromXsAttribute(a).value.FieldVar? ==>
      r.value == st.(vars := st.vars + [FromXsAttribute(a).value.v])
    ensures r.Success? && FromXsAttribute(a).Success? && FromXsAttribute(a).value.CellTypeSignal? ==>
      r.value == st.(cellType := Some(FromXsAttribute(a).value.cellType), cellsAreIds := FromXsAttribute(a).value.cellsAreIds)
    ensures r.Success? && FromXsAttribute(a).Success? && FromXsAttribute(a).value.DelimsSignal? ==>
      r.value == st.(delims := Some(FromXsAttribute(a).value.delims), dim := Some(|FromXsAttribute(a).value.delims|))
  {
    match FromXsAttribute(a)
    case Failure(e) => Failure(e)
    case Success(o) =>
      match o
      case FieldVar(v) => Success(st.(vars := st.vars + [v]))
      case CellTypeSignal(t, ids) =>
        if st.cellType.Some? && st.cellType.value != t then Failure(ConflictingCellType(st.cellType.value, t))
        else Success(st.(cellType := Some(t), cellsAreIds := ids))
      case DelimsSignal(d) =>
        if st.dim.Some? && st.delims != Some(d) then Failure(ConflictingDelims(d))
        else Success(st.(delims := Some(d), dim := Some(|d|)))
  }

  /** The fields the elements of a group contribute, each element that carries a `ref` in turn. */
  function NodeVars(ds: seq<ElementDecl>): (r: seq<Var>)
    ensures |r| <= |ds|
  {
    if ds == [] then []
    else (if ds[0].ref.Some? then [RefVar(ds[0].ref.value, ds[0].maxOccurs)] else []) + NodeVars(ds[1..])
  }

  /** When every element is a reference, each contributes its field, in order. */
  lemma {:induction false} NodeVarsOfRefs(ds: seq<ElementDecl>)
    requires forall k :: 0 <= k < |ds| ==> ds[k].ref.Some?
    ensures |NodeVars(ds)| == |ds|
    ensures forall k :: 0 <= k < |ds| ==> NodeVars(ds)[k] == RefVar(ds[k].ref.value, ds[k].maxOccurs)
  {
    if ds != [] {
      assert forall k :: 1 <= k < |ds| ==> ds[k] == ds[1..][k - 1];
      NodeVarsOfRefs(ds[1..]);
      var v := RefVar(ds[0].ref.value, ds[0].maxOccurs);
      assert NodeVars(ds) == [v] + NodeVars(ds[1..]);
    }
  }

  /** The group loop's fields: every element must be a reference, and each contributes its field. */
  function GroupVars(ds: seq<ElementDecl>): (r: Result<seq<Var>, Error>)
    ensures r.Success? ==> r.value == NodeVars(ds)
  {
    if ds == [] then Success([])
    else if ds[0].ref.None? then Failure(ElementWithoutRef)
    else
      var rest :- GroupVars(ds[1..]);
      Success([RefVar(ds[0].ref.value, ds[0].maxOccurs)] + rest)
  }

  /** The group loop on a class: its fields appended after the class's own. */
  function AddGroupVars(st: ClassState, ds: seq<ElementDecl>): (r: Result<ClassState, Error>)
    ensures r.Success? ==> r.value == st.(vars := st.vars + NodeVars(ds))
  {
    var vs :- GroupVars(ds);
    Success(st.(vars := st.vars + vs))
  }

  /** A reference at the head of a group puts its field before the rest's. */
  lemma GroupVarsCons(ds: seq<ElementDecl>)
    requires ds != [] && ds[0].ref.Some?
    ensures var g := GroupVars(ds[1..]);
      GroupVars(ds) == if g.Success? then Success([RefVar(ds[0].ref.value, ds[0].maxOccurs)] + g.value) else Failure(g.error)
  {
  }

  /** One turn of the group loop: a reference appends its field and the loop goes on. */
  lemma AddGroupVarsStep(st: ClassState, ds: seq<ElementDecl>)
    requires ds != [] && ds[0].ref.Some?
    ensures AddGroupVars(st, ds) == AddGroupVars(st.(vars := st.vars + [RefVar(ds[0].ref.value, ds[0].maxOccurs)]), ds[1..])
  {
    var v := RefVar(ds[0].ref.value, ds[0].maxOccurs);
    GroupVarsCons(ds);
    var g := GroupVars(ds[1..]);
    if g.Success? {
      SeqAssoc(st.vars, [v], g.value);
    }
  }

  lemma SeqAssoc<T>(a: seq<T>, b: seq<T>, c: seq<T>)
    ensures a + (b + c) == a + b + c
  {
  }

  /** The group's fields are found exactly when every element in it is a reference. */
  lemma {:induction false} GroupVarsSucceeds(ds: seq<ElementDecl>)
    ensures GroupVars(ds).Success? <==> forall k :: 0 <= k < |ds| ==> ds[k].ref.Some?
    decreases |ds|
  {
    if ds != [] && ds[0].ref.Some? {
      GroupVarsSucceeds(ds[1..]);
      assert forall k :: 1 <= k < |ds| ==> ds[k] == ds[1..][k - 1];
    }
  }

  /** A group is accepted exactly when every element in it is a reference. */
  lemma AddGroupVarsSucceeds(st: ClassState, ds: seq<ElementDecl>)
    ensures AddGroupVars(st, ds).Success? <==> forall k :: 0 <= k < |ds| ==> ds[k].ref.Some?
  {
    GroupVarsSucceeds(ds);
  }

  /** The fields a complex-type child contributes. */
  function ChildFields(c: Child): seq<Var> {
    match c
    case AttributeChild(a) => AttrFields(a)
    case GroupChild(_, ps) => NodeVars(Descendants(ps))
    case _ => []
  }

  /** One step of `populate_vars_from_subelements`. */
  function AddChild(st: ClassState, c: Child): (r: Result<ClassState, Error>)
    ensures c.OtherChild? ==> r == Failure(UnhandledElement(c.tag))
    ensures r.Success? ==> SameIdentity(st, r.value)
    ensures r.Success? ==> r.value.vars == st.vars + ChildFields(c)
    ensures r.Success? ==> r.value.anyAttr == (st.anyAttr || c.AnyAttributeChild?)
    ensures r.Success? && TraitsValid(st) ==> TraitsValid(r.value)
    ensures r.Success? && st.cellType.Some? ==> r.value.cellType == st.cellType
    ensures r.Success? && TraitsValid(st) && st.delims.Some? ==> r.value.delims == st.delims
  {
    match c
    case AttributeChild(a) => MergeAttr(st, a)
    case AnyAttributeChild => Success(st.(anyAttr := true))
    case GroupChild(_, ps) => AddGroupVars(st, Descendants(ps))
    case OtherChild(tag) => Failure(UnhandledElement(tag))
  }

  /** `populate_vars_from_subelements`: the children in document order, stopping at the first error. */
  function AddChildren(st: ClassState, cs: seq<Child>): (r: Result<ClassState, Error>)
    ensures r.Success? ==> SameIdentity(st, r.value)
    decreases |cs|, 0
  {
    if cs == [] then Success(st)
    else Then(AddChild(st, cs[0]), cs[1..])
  }

  /** The rest of the children after one step, unless that step failed. */
  function Then(r: Result<ClassState, Error>, cs: seq<Child>): (r': Result<ClassState, Error>)
    ensures r'.Success? ==> r.Success? && SameIdentity(r.value, r'.value)
    decreases |cs|, 1
  {
    if r.Failure? then Failure(r.error) else AddChildren(r.value, cs)
  }

  /** The fields all the children contribute, in document order. */
  function ChildrenFields(cs: seq<Child>): seq<Var> {
    if cs == [] then [] else ChildFields(cs[0]) + ChildrenFields(cs[1..])
  }

  predicate HasAnyAttribute(cs: seq<Child>) {
    exists k :: 0 <= k < |cs| && cs[k].AnyAttributeChild?
  }

  /** A wildcard is among the children when it is the first of them or among the rest. */
  lemma HasAnyAttributeCons(cs: seq<Child>)
    requires cs != []
    ensures HasAnyAttribute(cs) == (cs[0].AnyAttributeChild? || HasAnyAttribute(cs[1..]))
  {
    if HasAnyAttribute(cs[1..]) {
      var k :| 0 <= k < |cs[1..]| && cs[1..][k].AnyAttributeChild?;
      assert cs[k + 1].AnyAttributeChild?;
    }
    if HasAnyAttribute(cs) && !cs[0].AnyAttributeChild? {
      var k :| 0 <= k < |cs| && cs[k].AnyAttributeChild?;
      assert cs[1..][k - 1].AnyAttributeChild?;
    }
  }

  /** Processing the children appends exactly their fields, in order. */
  lemma {:induction false} AddChildrenFields(st: ClassState, cs: seq<Child>)
    requires AddChildren(st, cs).Success?
    ensures AddChildren(st, cs).value.vars == st.vars + ChildrenFields(cs)
    decreases |cs|
  {
    if cs != [] {
      var r := AddChild(st, cs[0]);
      assert AddChildren(st, cs) == Then(r, cs[1..]);
      AddChildrenFields(r.value, cs[1..]);
    }
  }

  /** The class accepts any attribute exactly when it did before or some child is a wildcard. */
  lemma {:induction false} AddChildrenAnyAttr(st: ClassState, cs: seq<Child>)
    requires AddChildren(st, cs).Success?
    ensures AddChildren(st, cs).value.anyAttr == (st.anyAttr || HasAnyAttribute(cs))
    decreases |cs|
  {
    if cs != [] {
      var r := AddChild(st, cs[0]);
      assert AddChildren(st, cs) == Then(r, cs[1..]);
      AddChildrenAnyAttr(r.value, cs[1..]);
      HasAnyAttributeCons(cs);
    }
  }

  /** Traits stay consistent, and once declared they keep their value. */
  lemma {:induction false} AddChildrenTraits(st: ClassState, cs: seq<Child>)
    requires AddChildren(st, cs).Success?
    ensures TraitsValid(st) ==> TraitsValid(AddChildren(st, cs).value)
    ensures st.cellType.Some? ==> AddChildren(st, cs).value.cellType == st.cellType
    ensures TraitsValid(st) && st.delims.Some? ==> AddChildren(st, cs).value.delims == st.delims
    decreases |cs|
  {
    if cs != [] {
      var r := AddChild(st, cs[0]);
      assert AddChildren(st, cs) == Then(r, cs[1..]);
      AddChildrenTraits(r.value, cs[1..]);
    }
  }

  /** A child that declares the cell type: a `cellType` attribute with its default. */
  predicate SignalsCellType(c: Child) {
    c.AttributeChild? && FromXsAttribute(c.attr).Success? && FromXsAttribute(c.attr).value.CellTypeSignal?
  }

  /** A child that declares the delimiters: a `delims` attribute with its default. */
  predicate SignalsDelims(c: Child) {
    c.AttributeChild? && FromXsAttribute(c.attr).Success? && FromXsAttribute(c.attr).value.DelimsSignal?
  }

  /** A child that declares no trait leaves the traits as they were. */
  lemma AddChildKeepsTraits(st: ClassState, c: Child)
    requires AddChild(st, c).Success?
    ensures var r := AddChild(st, c).value;
      && (!SignalsCellType(c) ==> r.cellType == st.cellType && r.cellsAreIds == st.cellsAreIds)
      && (!SignalsDelims(c) ==> r.delims == st.delims && r.dim == st.dim)
  {
    match c {
      case AttributeChild(a) =>
      case AnyAttributeChild =>
      case GroupChild(_, ps) =>
        assert AddGroupVars(st, Descendants(ps)).Success?;
      case OtherChild(_) =>
    }
  }

  /** A trait declared by some child is the one the class ends up with. */
  lemma {:induction false} AddChildrenTraitRecorded(st: ClassState, cs: seq<Child>, k: nat)
    requires TraitsValid(st) && AddChildren(st, cs).Success?
    requires k < |cs| && (SignalsCellType(cs[k]) || SignalsDelims(cs[k]))
    ensures var o := FromXsAttribute(cs[k].attr).value;
      var r := AddChildren(st, cs).value;
      && (o.CellTypeSignal? ==> r.cellType == Some(o.cellType))
      && (o.DelimsSignal? ==> r.delims == Some(o.delims) && r.dim == Some(|o.delims|))
    decreases |cs|
  {
    var r0 := AddChild(st, cs[0]);
    assert AddChildren(st, cs) == Then(r0, cs[1..]);
    assert r0.Success?;
    assert AddChildren(st, cs) == AddChildren(r0.value, cs[1..]);
    if k == 0 {
      AddChildRecordsTrait(st, cs[0]);
      AddChildrenTraits(r0.value, cs[1..]);
    } else {
      assert cs[1..][k - 1] == cs[k];
      AddChildrenTraitRecorded(r0.value, cs[1..], k - 1);
    }
  }

  /** A child that declares a trait records it, consistently. */
  lemma AddChildRecordsTrait(st: ClassState, c: Child)
    requires TraitsValid(st) && AddChild(st, c).Success?
    requires SignalsCellType(c) || SignalsDelims(c)
    ensures var o := FromXsAttribute(c.attr).value;
      var r := AddChild(st, c).value;
      && TraitsValid(r)
      && (o.CellTypeSignal? ==> r.cellType == Some(o.cellType))
      && (o.DelimsSignal? ==> r.delims == Some(o.delims))
  {
    assert AddChild(st, c) == MergeAttr(st, c.attr);
  }

  /** Without a child that declares a trait, the class keeps the trait it had. */
  lemma {:induction false} AddChildrenTraitUndeclared(st: ClassState, cs: seq<Child>)
    requires AddChildren(st, cs).Success?
    ensures var r := AddChildren(st, cs).value;
      && ((forall k :: 0 <= k < |cs| ==> !SignalsCellType(cs[k])) ==> r.cellType == st.cellType)
      && ((forall k :: 0 <= k < |cs| ==> !SignalsDelims(cs[k])) ==> r.delims == st.delims && r.dim == st.dim)
    decreases |cs|
  {
    if cs != [] {
      var r0 := AddChild(st, cs[0]);
      assert AddChildren(st, cs) == Then(r0, cs[1..]);
      assert AddChildren(st, cs) == AddChildren(r0.value, cs[1..]);
      AddChildKeepsTraits(st, cs[0]);
      AddChildrenTraitUndeclared(r0.value, cs[1..]);
      assert forall k :: 1 <= k < |cs| ==> cs[k] == cs[1..][k - 1];
    }
  }

  /** A child of an unknown kind makes the whole walk fail. */
  lemma {:induction false} UnhandledChildFails(st: ClassState, cs: seq<Child>, k: nat)
    requires k < |cs| && cs[k].OtherChild?
    ensures AddChildren(st, cs).Failure?
    decreases |cs|
  {
    var r := AddChild(st, cs[0]);
    assert AddChildren(st, cs) == Then(r, cs[1..]);
    if k == 0 {
      assert r.Failure?;
    } else if r.Success? {
      assert cs[1..][k - 1] == cs[k];
      UnhandledChildFails(r.value, cs[1..], k - 1);
      assert Then(r, cs[1..]) == AddChildren(r.value, cs[1..]);
    }
  }

  /** No field that comes from attributes or groups is stored in the text. */
  lemma {:induction false} ChildrenFieldsNotText(cs: seq<Child>)
    ensures forall k :: 0 <= k < |ChildrenFields(cs)| ==> ChildrenFields(cs)[k].storage != TextStorage
  {
    if cs != [] {
      ChildrenFieldsNotText(cs[1..]);
      ChildFieldsNotText(cs[0]);
      var a: seq<Var>, b: seq<Var> := ChildFields(cs[0]), ChildrenFields(cs[1..]);
      forall k | 0 <= k < |a + b| ensures (a + b)[k].storage != TextStorage {
        if k >= |a| { assert (a + b)[k] == b[k - |a|]; }
      }
    }
  }

  lemma ChildFieldsNotText(c: Child)
    ensures forall k :: 0 <= k < |ChildFields(c)| ==> ChildFields(c)[k].storage != TextStorage
  {
    match c {
      case AttributeChild(a) =>
        AttrFieldsNotText(a);
      case GroupChild(_, ps) =>
        NodeVarsNotText(Descendants(ps));
      case _ =>
        assert ChildFields(c) == [];
    }
  }

  /** An attribute's field, if any, is stored as an attribute. */
  lemma AttrFieldsNotText(a: Attribute)
    ensures forall k :: 0 <= k < |AttrFields(a)| ==> AttrFields(a)[k].storage == AttributeStorage
  {
    var r := FromXsAttribute(a);
    if r.Success? && r.value.FieldVar? {
      assert AttrFields(a) == [r.value.v];
    } else {
      assert AttrFields(a) == [];
    }
  }

  lemma {:induction false} NodeVarsNotText(ds: seq<ElementDecl>)
    ensures forall k :: 0 <= k < |NodeVars(ds)| ==> NodeVars(ds)[k].storage != TextStorage
  {
    if ds != [] {
      NodeVarsNotText(ds[1..]);
      var a: seq<Var> := if ds[0].ref.Some? then [RefVar(ds[0].ref.value, ds[0].maxOccurs)] else [];
      var b: seq<Var> := NodeVars(ds[1..]);
      assert NodeVars(ds) == a + b;
      NoTextConcat(a, b);
    }
  }

  lemma NoTextConcat(a: seq<Var>, b: seq<Var>)
    requires forall k :: 0 <= k < |a| ==> a[k].storage != TextStorage
    requires forall k :: 0 <= k < |b| ==> b[k].storage != TextStorage
    ensures forall k :: 0 <= k < |a + b| ==> (a + b)[k].storage != TextStorage
  {
    forall k | 0 <= k < |a + b| ensures (a + b)[k].storage != TextStorage {
      if k >= |a| { assert (a + b)[k] == b[k - |a|]; }
    }
  }

  /** A class's text field appended after its other fields. */
  function WithTextVar(st: ClassState): ClassState {
    st.(vars := st.vars + [TextVar(st.dim, st.cellType)])
  }

  predicate IsMixed(ct: ComplexType) {
    ct.mixed == Some("true")
  }

  /** `populate_vars_from_element`: a complex type (mixed or not), or else a simple type. */
  function BuildVars(st: ClassState, e: Element): (r: Result<ClassState, Error>)
    ensures r.Success? ==> SameIdentity(st, r.value)
  {
    match e.complexType
    case Some(ct) =>
      if IsMixed(ct) then
        var st' :- AddChildren(st, ct.children);
        Success(WithTextVar(st'))
      else AddChildren(st, ct.children)
    case None =>
      var v :- SimpleTypeVar(e);
      Success(st.(vars := st.vars + [v]))
  }

  /** The fields an element contributes, as a reference for BuildVars. */
  function ElementFields(e: Element, traits: ClassState): seq<Var>
    requires e.complexType.Some? || SimpleTypeVar(e).Success?
  {
    match e.complexType
    case Some(ct) =>
      ChildrenFields(ct.children) + (if IsMixed(ct) then [TextVar(traits.dim, traits.cellType)] else [])
    case None => [SimpleTypeVar(e).value]
  }

  /**
   * The fields of an element: those of its children in document order, then
   * one text field when its content is mixed; a simple element has only its
   * text field.  Exactly the mixed and the simple elements get a text field,
   * and it is the last one.
   */
  lemma BuildVarsFields(st: ClassState, e: Element)
    requires BuildVars(st, e).Success?
    ensures var r := BuildVars(st, e).value;
      && SameIdentity(st, r)
      && (e.complexType.Some? || SimpleTypeVar(e).Success?)
      && r.vars == st.vars + ElementFields(e, r)
      && ((exists k :: |st.vars| <= k < |r.vars| && r.vars[k].storage == TextStorage) <==>
          (e.complexType.None? || IsMixed(e.complexType.value)))
      && (e.complexType.None? || IsMixed(e.complexType.value) ==> r.vars[|r.vars| - 1].storage == TextStorage)
  {
    if e.complexType.Some? {
      ComplexVarsFields(st, e, e.complexType.value);
    } else {
      var v := SimpleTypeVar(e).value;
      var r := st.(vars := st.vars + [v]);
      assert BuildVars(st, e).value == r;
      assert r.vars[|r.vars| - 1] == v && v.storage == TextStorage;
    }
  }

  /** The fields of a mixed complex type: the children's, then the text field. */
  /** BuildVars of a mixed complex type: the children's fields, then the text field. */
  lemma MixedBuildVars(st: ClassState, e: Element, ct: ComplexType)
    requires e.complexType == Some(ct) && IsMixed(ct) && AddChildren(st, ct.children).Success?
    ensures BuildVars(st, e) == Success(WithTextVar(AddChildren(st, ct.children).value))
  {
  }

  lemma MixedVarsFields(st: ClassState, e: Element, ct: ComplexType)
    requires e.complexType == Some(ct) && IsMixed(ct) && AddChildren(st, ct.children).Success?
    ensures BuildVars(st, e) == Success(WithTextVar(AddChildren(st, ct.children).value))
    ensures var r := WithTextVar(AddChildren(st, ct.children).value);
      r.vars == st.vars + ElementFields(e, r) && r.vars[|r.vars| - 1].storage == TextStorage
  {
    MixedBuildVars(st, e, ct);
    var a := AddChildren(st, ct.children).value;
    var r := WithTextVar(a);
    assert r.vars == st.vars + ElementFields(e, r) by {
      AddChildrenFields(st, ct.children);
      var f := ChildrenFields(ct.children);
      var t := TextVar(r.dim, r.cellType);
      assert ElementFields(e, r) == f + [t];
      assert r.vars == (st.vars + f) + [t] == st.vars + (f + [t]);
    }
  }

  /** The fields of a complex type that is not mixed: the children's, none of them text. */
  lemma PlainVarsFields(st: ClassState, e: Element, ct: ComplexType)
    requires e.complexType == Some(ct) && !IsMixed(ct) && AddChildren(st, ct.children).Success?
    ensures BuildVars(st, e) == AddChildren(st, ct.children)
    ensures var a := AddChildren(st, ct.children).value;
      && a.vars == st.vars + ElementFields(e, a)
      && forall k :: |st.vars| <= k < |a.vars| ==> a.vars[k].storage != TextStorage
  {
    var a := AddChildren(st, ct.children).value;
    AddChildrenFields(st, ct.children);
    ChildrenFieldsNotText(ct.children);
    var f := ChildrenFields(ct.children);
    assert a.vars == st.vars + (f + []);
    forall k | |st.vars| <= k < |a.vars| ensures a.vars[k].storage != TextStorage {
      assert a.vars[k] == f[k - |st.vars|];
    }
  }

  /** BuildVarsFields for an element with a complex type. */
  lemma ComplexVarsFields(st: ClassState, e: Element, ct: ComplexType)
    requires e.complexType == Some(ct) && BuildVars(st, e).Success?
    ensures var r := BuildVars(st, e).value;
      && r.vars == st.vars + ElementFields(e, r)
      && ((exists k :: |st.vars| <= k < |r.vars| && r.vars[k].storage == TextStorage) <==> IsMixed(ct))
      && (IsMixed(ct) ==> r.vars[|r.vars| - 1].storage == TextStorage)
  {
    assert AddChildren(st, ct.children).Success?;
    if IsMixed(ct) {
      MixedVarsFields(st, e, ct);
      var r := BuildVars(st, e).value;
      assert |st.vars| <= |r.vars| - 1;
    } else {
      PlainVarsFields(st, e, ct);
    }
  }

  /** The builder keeps the traits consistent. */
  lemma BuildVarsTraits(st: ClassState, e: Element)
    requires BuildVars(st, e).Success? && TraitsValid(st)
    ensures TraitsValid(BuildVars(st, e).value)
    ensures BuildVars(st, e).value.anyAttr == (st.anyAttr || (e.complexType.Some? && HasAnyAttribute(e.complexType.value.children)))
  {
    if e.complexType.Some? {
      AddChildrenTraits(st, e.complexType.value.children);
      AddChildrenAnyAttr(st, e.complexType.value.children);
    }
  }

  predicate HasVarNamed(vars: seq<Var>, name: string) {
    exists k :: 0 <= k < |vars| && vars[k].name == name
  }

  /** `any?` over the fields: whether one of them has the given name. */
  method AnyVarNamed(vars: seq<Var>, name: string) returns (found: bool)
    ensures found == HasVarNamed(vars, name)
  {
    found := false;
    var k := 0;
    while k < |vars|
      invariant 0 <= k <= |vars|
      invariant found <==> exists j :: 0 <= j < k && vars[j].name == name
    {
      if vars[k].name == name {
        found := true;
      }
      k := k + 1;
    }
  }

  /** `populate_from_element`: name the class after the element, build its fields, add the schema version constant. */
  function BuildClass(st: ClassState, e: Element, packageName: string, version: Option<string>): (r: Result<ClassState, Error>)
    ensures r.Success? ==> r.value.name == Some(FixName(e.name)) && r.value.xmlName == Some(e.name)
    ensures r.Success? ==> r.value.packageName == Some(packageName)
    ensures r.Success? ==> r.value.referenced == st.referenced && r.value.refName == st.refName
    ensures r.Success? ==> (HasVarNamed(r.value.vars, "schemaVersion") ==> r.value.consts == st.consts + [Const("SchemaVersion", version)])
    ensures r.Success? ==> (!HasVarNamed(r.value.vars, "schemaVersion") ==> r.value.consts == st.consts)
  {
    var st2 :- BuildVars(Named(st, e, packageName), e);
    Success(WithSchemaConst(st2, version))
  }

  /** The class named after the element, in its package. */
  function Named(st: ClassState, e: Element, packageName: string): ClassState {
    st.(name := Some(FixName(e.name)), xmlName := Some(e.name), packageName := Some(packageName))
  }

  /** The schema version constant, added when the class has a schemaVersion field. */
  function WithSchemaConst(st: ClassState, version: Option<string>): ClassState {
    if HasVarNamed(st.vars, "schemaVersion") then st.(consts := st.consts + [Const("SchemaVersion", version)])
    else st
  }

  /** `Class.from_element`: a new class built from one element. */
  function ClassFromElement(e: Element, packageName: string, version: Option<string>): Result<ClassState, Error> {
    BuildClass(Fresh(None), e, packageName, version)
  }

  /**
   * What a class built from an element looks like: its fields are the
   * element's, its traits are consistent, it is not referenced, it accepts
   * any attribute exactly when it declares a wildcard, and it has the
   * schema version constant exactly when it has a schemaVersion field.
   */
  lemma ClassFromElementShape(e: Element, packageName: string, version: Option<string>)
    requires ClassFromElement(e, packageName, version).Success?
    ensures var c := ClassFromElement(e, packageName, version).value;
      && c.name == Some(FixName(e.name))
      && (e.complexType.Some? || SimpleTypeVar(e).Success?)
      && c.vars == ElementFields(e, c)
      && TraitsValid(c)
      && !c.referenced && c.refName.None?
      && c.anyAttr == (e.complexType.Some? && HasAnyAttribute(e.complexType.value.children))
      && (c.consts == [Const("SchemaVersion", version)] <==> HasVarNamed(c.vars, "schemaVersion"))
      && (c.consts == [] <==> !HasVarNamed(c.vars, "schemaVersion"))
  {
    var st1 := Named(Fresh(None), e, packageName);
    BuildVarsFields(st1, e);
    BuildVarsTraits(st1, e);
  }

  /**
   * A class built from an element has a cell type exactly when one of the
   * element's attributes declares it, and then it is the declared one; the
   * same holds for the delimiters, whose size is the dimension.
   */
  lemma ClassFromElementTraits(e: Element, packageName: string, version: Option<string>)
    requires ClassFromElement(e, packageName, version).Success?
    ensures var c := ClassFromElement(e, packageName, version).value;
      var cs := if e.complexType.Some? then e.complexType.value.children else [];
      && (c.cellType.Some? <==> exists k :: 0 <= k < |cs| && SignalsCellType(cs[k]))
      && (c.delims.Some? <==> exists k :: 0 <= k < |cs| && SignalsDelims(cs[k]))
      && (forall k :: 0 <= k < |cs| && SignalsCellType(cs[k]) ==>
            c.cellType == Some(FromXsAttribute(cs[k].attr).value.cellType))
      && (forall k :: 0 <= k < |cs| && SignalsDelims(cs[k]) ==>
            c.delims == Some(FromXsAttribute(cs[k].attr).value.delims) &&
            c.dim == Some(|FromXsAttribute(cs[k].attr).value.delims|))
  {
    var st1 := Named(Fresh(None), e, packageName);
    ClassTraitsOfChildren(e, packageName, version);
    if e.complexType.Some? {
      AddChildrenTraitsExact(st1, e.complexType.value.children);
    }
  }

  /** A class built from an element has the traits its children's walk leaves, and none without a complex type. */
  lemma ClassTraitsOfChildren(e: Element, packageName: string, version: Option<string>)
    requires ClassFromElement(e, packageName, version).Success?
    ensures var c := ClassFromElement(e, packageName, version).value;
      var st1 := Named(Fresh(None), e, packageName);
      && (e.complexType.None? ==> c.cellType.None? && c.delims.None?)
      && (e.complexType.Some? ==>
            && AddChildren(st1, e.complexType.value.children).Success?
            && c.cellType == AddChildren(st1, e.complexType.value.children).value.cellType
            && c.delims == AddChildren(st1, e.complexType.value.children).value.delims
            && c.dim == AddChildren(st1, e.complexType.value.children).value.dim)
  {
    var st1 := Named(Fresh(None), e, packageName);
    BuildClassTraits(Fresh(None), e, packageName, version);
    BuildVarsTraitsOfChildren(st1, e);
  }

  /** Building a class leaves the traits its fields' walk produced. */
  lemma BuildClassTraits(st: ClassState, e: Element, packageName: string, version: Option<string>)
    requires BuildClass(st, e, packageName, version).Success?
    ensures BuildVars(Named(st, e, packageName), e).Success?
    ensures var c := BuildClass(st, e, packageName, version).value;
      var b := BuildVars(Named(st, e, packageName), e).value;
      c.cellType == b.cellType && c.delims == b.delims && c.dim == b.dim
  {
  }

  /** The field walk over a complex type keeps the traits its children left; a simple type adds none. */
  lemma BuildVarsTraitsOfChildren(st: ClassState, e: Element)
    requires BuildVars(st, e).Success?
    ensures e.complexType.None? ==> BuildVars(st, e).value.cellType == st.cellType && BuildVars(st, e).value.delims == st.delims
    ensures e.complexType.Some? ==> AddChildren(st, e.complexType.value.children).Success?
    ensures e.complexType.Some? ==>
      var a := AddChildren(st, e.complexType.value.children).value;
      var b := BuildVars(st, e).value;
      b.cellType == a.cellType && b.delims == a.delims && b.dim == a.dim
  {
  }

  /** From a class without traits, the children's walk ends with exactly the traits they declare. */
  lemma AddChildrenTraitsExact(st: ClassState, cs: seq<Child>)
    requires AddChildren(st, cs).Success?
    requires st.cellType.None? && st.delims.None? && st.dim.None? && !st.cellsAreIds
    ensures var a := AddChildren(st, cs).value;
      && (a.cellType.Some? <==> exists k :: 0 <= k < |cs| && SignalsCellType(cs[k]))
      && (a.delims.Some? <==> exists k :: 0 <= k < |cs| && SignalsDelims(cs[k]))
      && (forall k :: 0 <= k < |cs| && SignalsCellType(cs[k]) ==>
            a.cellType == Some(FromXsAttribute(cs[k].attr).value.cellType))
      && (forall k :: 0 <= k < |cs| && SignalsDelims(cs[k]) ==>
            a.delims == Some(FromXsAttribute(cs[k].attr).value.delims) &&
            a.dim == Some(|FromXsAttribute(cs[k].attr).value.delims|))
  {
    var a := AddChildren(st, cs).value;
    AddChildrenTraitUndeclared(st, cs);
    forall k | 0 <= k < |cs| && (SignalsCellType(cs[k]) || SignalsDelims(cs[k]))
      ensures SignalsCellType(cs[k]) ==> a.cellType == Some(FromXsAttribute(cs[k].attr).value.cellType)
      ensures SignalsDelims(cs[k]) ==> a.delims == Some(FromXsAttribute(cs[k].attr).value.delims)
      ensures SignalsDelims(cs[k]) ==> a.dim == Some(|FromXsAttribute(cs[k].attr).value.delims|)
    {
      AddChildrenTraitRecorded(st, cs, k);
    }
  }

  // ---------------------------------------------------------------------
  // The class, updated in place
  // ---------------------------------------------------------------------

  class ClassDef {
    var name: Option<string>
    var xmlName: Option<string>
    var packageName: Option<string>
    var vars: seq<Var>
    var consts: seq<Const>
    var cellType: Option<string>
    var cellsAreIds: bool
    var referenced: bool
    var refName: Option<string>
    var dim: Option<nat>
    var delims: Option<string>
    var anyAttr: bool

    /** The class's fields as one value. */
    function State(): ClassState
      reads this
    {
      ClassState(name, xmlName, packageName, vars, consts, cellType, cellsAreIds,
                 referenced, refName, dim, delims, anyAttr)
    }

    /** Traits are consistent, and a class is referenced exactly when it has a reference name. */
    predicate Valid()
      reads this
    {
      TraitsValid(State()) && (referenced <==> refName.Some?)
    }

    constructor (name: Option<string>)
      ensures Valid() && State() == Fresh(name)
    {
      this.name := if name.Some? then Some(FixName(name.value)) else None;
      xmlName := None;
      packageName := None;
      vars := [];
      consts := [];
      cellType := None;
      cellsAreIds := false;
      referenced := false;
      refName := None;
      dim := None;
      delims := None;
      anyAttr := false;
    }

    /** `referenced!`: the class is referenced by `name` from elsewhere. */
    method MarkReferenced(name: string)
      requires Valid()
      modifies this
      ensures Valid()
      ensures State() == old(State()).(referenced := true, refName := Some(name))
    {
      referenced := true;
      refName := Some(name);
    }

    /** `Class.from_element`. */
    static method FromElement(e: Element, packageName: string, version: Option<string>) returns (res: Outcome<Error>, c: ClassDef)
      ensures fresh(c) && c.Valid()
      ensures res == ClassFromElement(e, packageName, version).ToOutcome()
      ensures res.Pass? ==> c.State() == ClassFromElement(e, packageName, version).value && !c.referenced
    {
      c := new ClassDef(None);
      res := c.PopulateFromElement(e, packageName, version);
    }

    method PopulateFromElement(e: Element, packageName: string, version: Option<string>) returns (res: Outcome<Error>)
      requires Valid()
      modifies this
      ensures Valid()
      ensures res == BuildClass(old(State()), e, packageName, version).ToOutcome()
      ensures res.Pass? ==> State() == BuildClass(old(State()), e, packageName, version).value
    {
      SetNames(e, packageName);
      res := PopulateVarsFromElement(e);
      if res.Pass? {
        AddSchemaConst(version);
      }
    }

    /** The class takes the element's name, fixed, and the package's. */
    method SetNames(e: Element, packageName: string)
      requires Valid()
      modifies this
      ensures Valid()
      ensures State() == Named(old(State()), e, packageName)
    {
      xmlName := Some(e.name);
      name := Some(FixName(e.name));
      this.packageName := Some(packageName);
    }

    /** The schema version constant, when one of the fields is named schemaVersion. */
    method AddSchemaConst(version: Option<string>)
      requires Valid()
      modifies this
      ensures Valid()
      ensures State() == WithSchemaConst(old(State()), version)
    {
      var found := AnyVarNamed(vars, "schemaVersion");
      if found {
        consts := consts + [Const("SchemaVersion", version)];
      }
    }

    method PopulateVarsFromElement(e: Element) returns (res: Outcome<Error>)
      requires Valid()
      modifies this
      ensures Valid()
      ensures res == BuildVars(old(State()), e).ToOutcome()
      ensures res.Pass? ==> State() == BuildVars(old(State()), e).value
    {
      ghost var st := State();
      match e.complexType {
        case Some(ct) =>
          if IsMixed(ct) {
            ghost var r := AddChildren(st, ct.children);
            assert BuildVars(st, e) == if r.Failure? then Failure(r.error) else Success(WithTextVar(r.value));
            res := PopulateVarsFromMixed(ct);
          } else {
            assert BuildVars(st, e) == AddChildren(st, ct.children);
            res := PopulateVarsFromSubelements(ct);
          }
        case None =>
          ghost var v := SimpleTypeVar(e);
          assert BuildVars(st, e) == if v.Failure? then Failure(v.error) else Success(st.(vars := st.vars + [v.value]));
          res := PopulateVarsFromSimpleType(e);
      }
    }

    method PopulateVarsFromMixed(ct: ComplexType) returns (res: Outcome<Error>)
      requires Valid()
      modifies this
      ensures Valid()
      ensures var r := AddChildren(old(State()), ct.children);
        res == r.ToOutcome() && (res.Pass? ==> State() == WithTextVar(r.value))
    {
      res := PopulateVarsFromSubelements(ct);
      if res.Pass? {
        PopulateTextVar();
      }
    }

    method PopulateVarsFromSubelements(ct: ComplexType) returns (res: Outcome<Error>)
      requires Valid()
      modifies this
      ensures Valid()
      ensures res == AddChildren(old(State()), ct.children).ToOutcome()
      ensures res.Pass? ==> State() == AddChildren(old(State()), ct.children).value
    {
      var cs := ct.children;
      var i := 0;
      while i < |cs|
        invariant 0 <= i <= |cs| && Valid()
        invariant AddChildren(old(State()), cs) == AddChildren(State(), cs[i..])
      {
        assert cs[i..][0] == cs[i] && cs[i..][1..] == cs[i + 1..];
        res := PopulateFromChild(cs[i]);
        if res.Fail? {
          return;
        }
        i := i + 1;
      }
      res := Pass;
    }

    /** One child of the complex type: an attribute, `xs:anyAttribute`, or a model group. */
    method PopulateFromChild(c: Child) returns (res: Outcome<Error>)
      requires Valid()
      modifies this
      ensures Valid()
      ensures res == AddChild(old(State()), c).ToOutcome()
      ensures res.Pass? ==> State() == AddChild(old(State()), c).value
    {
      ghost var st := State();
      match c {
        case AttributeChild(a) =>
          assert AddChild(st, c) == MergeAttr(st, a);
          res := PopulateVarFromAttr(a);
        case AnyAttributeChild =>
          assert AddChild(st, c) == Success(st.(anyAttr := true));
          AcceptAnyAttribute();
          res := Pass;
        case GroupChild(_, ps) =>
          assert AddChild(st, c) == AddGroupVars(st, Descendants(ps));
          res := PopulateGroupVars(Descendants(ps));
        case OtherChild(tag) =>
          res := Fail(UnhandledElement(tag));
      }
    }

    /** An `xs:anyAttribute` child: the class accepts attributes it does not declare. */
    method AcceptAnyAttribute()
      requires Valid()
      modifies this
      ensures Valid() && State() == old(State()).(anyAttr := true)
    {
      anyAttr := true;
    }

    /** The `xs:element` descendants of a model group, each a reference to a class. */
    method PopulateGroupVars(ds: seq<ElementDecl>) returns (res: Outcome<Error>)
      requires Valid()
      modifies this
      ensures Valid()
      ensures res == AddGroupVars(old(State()), ds).ToOutcome()
      ensures res.Pass? ==> State() == AddGroupVars(old(State()), ds).value
    {
      var j := 0;
      while j < |ds|
        invariant 0 <= j <= |ds| && Valid()
        invariant AddGroupVars(old(State()), ds) == AddGroupVars(State(), ds[j..])
      {
        assert ds[j..][0] == ds[j] && ds[j..][1..] == ds[j + 1..];
        match ds[j].ref {
          case None =>
            return Fail(ElementWithoutRef);
          case Some(ref) =>
            AddGroupVarsStep(State(), ds[j..]);
            if ref == "parameters" {
              PopulateParametersVar();
            } else {
              PopulateVarFromSubelement(ref, ds[j].maxOccurs);
            }
        }
        j := j + 1;
      }
      res := Pass;
    }

    method PopulateVarFromSubelement(ref: string, maxOccurs: Option<string>)
      requires Valid()
      modifies this
      ensures Valid()
      ensures State() == old(State()).(vars := old(vars) + [SubelementVar(ref, maxOccurs)])
    {
      AppendVar(SubelementVar(ref, maxOccurs));
    }

    method PopulateParametersVar()
      requires Valid()
      modifies this
      ensures Valid()
      ensures State() == old(State()).(vars := old(vars) + [ParametersVar()])
    {
      AppendVar(ParametersVar());
    }

    /** One more field after the class's own; nothing else changes. */
    method AppendVar(v: Var)
      requires Valid()
      modifies this
      ensures Valid()
      ensures State() == old(State()).(vars := old(vars) + [v])
    {
      vars := vars + [v];
    }

    method PopulateVarFromAttr(a: Attribute) returns (res: Outcome<Error>)
      requires Valid()
      modifies this
      ensures Valid()
      ensures res == MergeAttr(old(State()), a).ToOutcome()
      ensures res.Pass? ==> State() == MergeAttr(old(State()), a).value
      ensures res.Fail? ==> State() == old(State())
    {
      match FromXsAttribute(a) {
        case Failure(e) =>
          return Fail(e);
        case Success(o) =>
          match o {
            case FieldVar(v) =>
              vars := vars + [v];
            case CellTypeSignal(t, ids) =>
              if cellType.Some? && cellType.value != t {
                return Fail(ConflictingCellType(cellType.value, t));
              }
              cellType := Some(t);
              cellsAreIds := ids;
            case DelimsSignal(d) =>
              if dim.Some? && delims != Some(d) {
                return Fail(ConflictingDelims(d));
              }
              delims := Some(d);
              dim := Some(|d|);
          }
      }
      res := Pass;
    }

    method PopulateTextVar()
      requires Valid()
      modifies this
      ensures Valid()
      ensures State() == WithTextVar(old(State()))
    {
      var textName: string, textType: Option<string>;
      match dim {
        case None =>
          textName, textType := "text", Some("String");
        case Some(d) =>
          if d == 0 {
            textName, textType := "value", cellType;
          } else {
            textName, textType := "cells", Some("Array");
          }
      }
      vars := vars + [NewVar(textName, textType, None, TextStorage, None, None)];
    }

    method PopulateVarsFromSimpleType(e: Element) returns (res: Outcome<Error>)
      requires Valid()
      modifies this
      ensures Valid()
      ensures res == SimpleTypeVar(e).ToOutcome()
      ensures res.Pass? ==> State() == old(State()).(vars := old(vars) + [SimpleTypeVar(e).value])
    {
      if e.typeName.None? && e.restriction.None? {
        return Fail(MissingRestriction(e.name));
      }
      var xsType := if e.typeName.Some? then e.typeName else e.restriction.value.base;
      var varType := ScalarType(xsType);
      if varType.None? {
        return Fail(NoTextType(xsType));
      }
      vars := vars + [NewVar("text", varType, None, TextStorage, None, None)];
      res := Pass;
    }
  }
}
