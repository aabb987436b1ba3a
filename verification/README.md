# xsd2bb core, modelled in Dafny

xsd2bb reads an XML Schema (XSD) and turns each top-level `xs:element` into a
class: a set of fields (`BB::Var`), class-level traits (`cellType`, `delims`,
`dim`), constants and reference links between classes. It then writes the
classes out as code. This project models the part that decides what the
classes are. It does not model the code writer. It covers five pieces:

- **Array text** (`test/parse.rb`, module `ArrayText`). A cell text such as
  `"1:2,3:4"` holds a scalar, vector, matrix or cube of numbers. The three
  separators `;`, `,` and `:` mark the levels. `numeric` reads one token with
  Ruby's `Integer()`. `parse data, dim` rejects text with more distinct
  separators than `dim`, then splits the text by the rules for that dim.
  Module `ArrayTextRoundTrip` adds a renderer of its own and proves that
  `Parse` reads back what it writes. `ParseExamples` proves each test case
  of the file.
- **Fields** (`lib/bb/var.rb`, module `BbVar`). A field is a `Var` value.
  Its `references` is taken from a name ending in `_id`.
  `Var.from_xs_attribute` turns one `xs:attribute` into one of three things:
  - a field;
  - a `cellType` trait signal;
  - a `delims` trait signal.

  The `CellTypeException` and `DimException` signals are modelled as the
  `AttrOutcome` datatype. Ruby's `String#inspect`, used to quote string
  defaults, is modelled together with an unquoting inverse.
- **Classes** (`lib/bb/class.rb`, module `BbClass`).
  - The `ClassDef` class has the source's fields. Its `Populate*` methods
    append to `vars` and set traits in place.
  - Each method is proved against a pure builder on a `ClassState` snapshot
    (`MergeAttr`, `AddChild`, `AddChildren`, `BuildVars`, `BuildClass`).
  - Lemmas about that builder state what a finished class looks like.
- **Package** (`lib/bb/package.rb`, module `BbPackage`).
  - The `Package` class holds the list of classes and the list of
    referenced classes.
  - `PopulateFromSchema` builds one class per element.
  - `ScanForReferenceTypes` resolves each reference by name and marks its
    target as referenced.
  - Both are proved against pure functions: `BuildClasses` and the resolver
    `Resolve`/`Handle` over a `Marking` (the reference names recorded per
    class, plus the indices marked so far).
- **Indentation** (`lib/bb/generative.rb`, module `Generative`).
  - `Indent` flattens nested blocks of lines into an `Output` buffer. Each
    nesting level adds two spaces.
  - `GenString` drops top-level nils, then joins the lines with `"\n"`.
  - Both are proved against the pure `Flatten`. `Flatten` is in turn shown
    equal to an independent definition: the leaves with their nesting
    levels.

`Xsd` is the already-parsed schema tree the compiler reads, together with its
error kinds. `Wrappers` holds `Option`, `Result` and `Outcome`. Every `raise`
in the source becomes a `Failure`/`Fail` value. Three `NoMethodError`s on
`nil` are error values too:
- a `delims` attribute without an optional default (`DelimsWithoutDefault`).
  The source calls `split` on the missing default (lib/bb/var.rb:145). A
  `cellType` attribute without one is a real `raise` (lib/bb/var.rb:123-126).
- a simple element with neither a type nor a restriction (`MissingRestriction`).
- a `nil` inside a nested block of generated lines.

Names are always present in the model, so the `NoMethodError` of a
declaration without a `name` is not modelled (see "Left out").

## Model

| member | source | states |
|---|---|---|
| ArrayText.SeparatorList | test/parse.rb:21-25 | a character is in the list exactly when it is one of `;` `,` `:` and occurs in the text; the list runs from highest precedence to lowest (`;`, `,`, `:`), so no separator appears twice |
| ArrayText.Strip | test/parse.rb:8-14 | the text `Integer()` reads has no leading or trailing white space |
| ArrayText.Numeric | test/parse.rb:8-14 | a token is accepted exactly when, stripped, it is a signed decimal integer literal; otherwise the error names the token |
| ArrayText.NumericExactly | test/parse.rb:8-14 | `numeric(s)` is `n` exactly when the stripped `s` is `n`'s decimal text, or that text with `+`, or `-0` for zero |
| ArrayText.NumericOfFormatInt | test/parse.rb:8-14 | every integer's text, padded with white space on either side, reads back as that integer |
| ArrayText.NumericOfToken | test/parse.rb:8-14 | every integer's text reads back as that integer |
| ArrayText.DigitsOfDigitsValue | test/parse.rb:8-14 | a decimal digit string without leading zeros is the text of its own value |
| ArrayText.Numerics | test/parse.rb:36 | succeeds exactly when every piece reads as a number, and then holds each piece's value in order; otherwise the error is that of the first piece that is not a number, every earlier piece reading |
| ArrayText.NumericsAll | test/parse.rb:36 | when every piece reads as a number, the mapped result is exactly those numbers |
| ArrayText.Singletons | test/parse.rb:50-51 | succeeds exactly when every piece is a number, and then gives one one-cell row per piece holding its value; otherwise the first non-number's error |
| ArrayText.Rows | test/parse.rb:56-59 | one row per piece on success (what each row holds is `RowsRead`) |
| ArrayText.RowsRead | test/parse.rb:56-59 | each row holds the numbers its cells read as, in order; a failure is the error of the first row holding a non-number, every earlier row reading |
| ArrayText.Sheets | test/parse.rb:63-68 | one sheet per piece on success (what each sheet holds is `SheetsRead`) |
| ArrayText.SheetsRead | test/parse.rb:63-68 | each sheet is the rows its piece reads as when split on `,` and then `:`; a failure is the error of the first sheet that does not read, every earlier sheet reading |
| ArrayText.VectorPieces | test/parse.rb:36 | with one separator present, the text split on it; with none, the white-space separated fields |
| ArrayText.ParseMatrix | test/parse.rb:38-60 | a successful two-dimensional read is a matrix |
| ArrayText.RawSplitJoin | test/parse.rb:36 | splitting on a character gives pieces free of it, and joining them with it rebuilds the text |
| ArrayText.Split | test/parse.rb:36 | Ruby's `split` on one character: no piece holds the separator and the last piece is never empty |
| ArrayText.Fields | test/parse.rb:36 | `split(" ")`: every piece is a non-empty run without white space |
| ArrayText.SplitOfJoin | test/parse.rb:47-51 | Ruby's `split` (trailing empty pieces dropped) undoes a join of non-empty, separator-free pieces |
| ArrayText.FieldsOfWord | test/parse.rb:36 | `split(" ")` of a text with no white space is that one word, or nothing for the empty text |
| ArrayText.Parse | test/parse.rb:20-70 | more separators than `dim` is the too-many-dimensions error; on success the result's nesting depth is `dim`; a negative `dim` always fails; a `dim` above 3 gives no value |
| ArrayText.ScalarCase | test/parse.rb:31-33 | dim 0 reads the whole text as one number |
| ArrayText.VectorCase | test/parse.rb:35-36 | dim 1 succeeds exactly when every piece (of the one separator present, or the white-space fields) reads as a number; the vector holds their values in order; otherwise the first non-number's error |
| ArrayText.MatrixScalarCase | test/parse.rb:39-41 | dim 2 without separators wraps the one number as a 1×1 matrix |
| ArrayText.MatrixCommaCase | test/parse.rb:43-45 | dim 2 with only commas is the ambiguous-data error naming the text |
| ArrayText.MatrixColonCase | test/parse.rb:46-48 | dim 2 with only colons is one row |
| ArrayText.MatrixSemicolonCase | test/parse.rb:49-51 | dim 2 with only semicolons succeeds exactly when every piece is a number, giving a column with one one-cell row per piece in order; otherwise the first non-number's error |
| ArrayText.MatrixTwoSeparatorCase | test/parse.rb:55-59 | dim 2 with two separators splits rows on the higher-precedence one and cells on the lower one; each row holds its cells' numbers; a failure is raised in the first row holding a non-number |
| ArrayText.CubeCase | test/parse.rb:62-68 | dim 3 splits on `;`, then `,`, then `:`; a cube with one sheet per piece, one row per sub-piece, each row its cells' numbers; a failure is raised in the first failing sheet, at its first failing row |
| ArrayTextRoundTrip.VectorRoundTrip | test/parse.rb:35-36 | any integer list written with one separator parses back at dim 1 |
| ArrayTextRoundTrip.RowsOfRendered | test/parse.rb:55-59 | rows written with a cell separator read back row by row |
| ArrayTextRoundTrip.SingletonsOfRendered | test/parse.rb:49-51 | one-number rows read back as singletons |
| ArrayTextRoundTrip.MatrixRoundTrip | test/parse.rb:38-60 | a matrix with non-empty rows, written with `;` between rows, parses back at dim 2; the exception is a single row of two or more cells joined by commas, which is reported as ambiguous |
| ArrayTextRoundTrip.OneRowRoundTrip | test/parse.rb:43-48 | a single row parses back with colons and is ambiguous with commas when it has two or more cells |
| ArrayTextRoundTrip.ManyRowsRoundTrip | test/parse.rb:49-59 | two or more non-empty rows, separated by `;`, parse back at dim 2 |
| ArrayTextRoundTrip.WideRowsRoundTrip | test/parse.rb:55-59 | a matrix that uses both a row and a cell separator parses back at dim 2 |
| ArrayTextRoundTrip.ColumnRoundTrip | test/parse.rb:49-51 | a column of single numbers separated by `;` parses back at dim 2 |
| ArrayTextRoundTrip.SheetsOfRendered | test/parse.rb:63-68 | sheets written with `,` and `:` read back sheet by sheet |
| ArrayTextRoundTrip.CubeRoundTrip | test/parse.rb:62-68 | any cube whose sheets and rows are non-empty parses back at dim 3 |
| ParseExamples.ScalarExamples | test/parse.rb:99-100 | `" 4 "` at dim 0 is 4; `" 4, 5 "` at dim 0 has too many dimensions |
| ParseExamples.PaddedVector | test/parse.rb:104-106 | `" 1c2c3 "` at dim 1 is `[1,2,3]` for each separator `c` |
| ParseExamples.VectorCommaExample | test/parse.rb:104 | `" 1,2,3 "` at dim 1 is `[1,2,3]` |
| ParseExamples.VectorColonExample | test/parse.rb:105 | `" 1:2:3 "` at dim 1 is `[1,2,3]` |
| ParseExamples.VectorSemicolonExample | test/parse.rb:106 | `" 1;2;3 "` at dim 1 is `[1,2,3]` |
| ParseExamples.TooManyDimensionsExamples | test/parse.rb:107-119 | `" 1,2:3 "` at dim 1 and `" 1,2:3;4 "` at dim 2 have too many dimensions |
| ParseExamples.MatrixScalarExample | test/parse.rb:110 | `"1"` at dim 2 is `[[1]]` |
| ParseExamples.MatrixRowExample | test/parse.rb:112 | `"1:2"` at dim 2 is `[[1,2]]` |
| ParseExamples.MatrixAmbiguousExample | test/parse.rb:113 | `"1,2"` at dim 2 is the ambiguous-data error, as the disabled test expects |
| ParseExamples.MatrixColumnExample | test/parse.rb:114 | `"1;2"` at dim 2 is `[[1],[2]]` |
| ParseExamples.MatrixSemicolonCommaExample | test/parse.rb:116 | `"1,2;3,4"` at dim 2 is `[[1,2],[3,4]]` |
| ParseExamples.MatrixCommaColonExample | test/parse.rb:117 | `"1:2,3:4"` at dim 2 is `[[1,2],[3,4]]` |
| ParseExamples.MatrixSemicolonColonExample | test/parse.rb:118 | `"1:2;3:4"` at dim 2 is `[[1,2],[3,4]]` |
| ParseExamples.CubeFullExample | test/parse.rb:122-124 | the two-sheet text at dim 3 is the expected 2×2×3 cube |
| ParseExamples.CubeScalarExample | test/parse.rb:125 | `"1"` at dim 3 is `[[[1]]]` |
| ParseExamples.CubeRowExample | test/parse.rb:126 | `"1:2"` at dim 3 is `[[[1,2]]]` |
| ParseExamples.CubeCommaExample | test/parse.rb:127 | `"1,2"` at dim 3 is `[[[1],[2]]]` |
| ParseExamples.CubeSemicolonExample | test/parse.rb:128 | `"1;2"` at dim 3 is `[[[1]],[[2]]]` |
| ParseExamples.CubeSheetsExample | test/parse.rb:129-131 | `"1,2;3,4"` at dim 3 is `[[[1],[2]],[[3],[4]]]` |
| BbVar.ReferenceName | lib/bb/var.rb:75-77 | the captured reference name is a single line |
| BbVar.NewVar | lib/bb/var.rb:66-78 | a new field keeps every given attribute, and its reference is the one its name gives (`(.*)_id$`) |
| BbVar.SingleLineReference | lib/bb/var.rb:75-77 | a one-line name has a reference exactly when it ends in `_id`, and the reference is the name without that `_id` |
| BbVar.IdNameReferences | lib/bb/var.rb:75-77 | `B_id` refers to `B`, the greedy capture |
| BbVar.NextLineReference | lib/bb/var.rb:75-77 | a first line not ending in `_id` is skipped and the match is sought in the lines after it |
| BbVar.ScalarType | lib/bb/var.rb:46-51 | the field type is the table entry of the XSD type, and is absent exactly when the type is not one of the four keys |
| BbVar.VarName | lib/bb/var.rb:88-94 | `class` is renamed, so a field is never named `class`; any other name is kept |
| BbVar.OptionalDefault | lib/bb/var.rb:111-115 | a default exactly when the attribute is `optional` and declares one, and then the declared default |
| BbVar.Quote | lib/bb/var.rb:148-155 | `inspect` gives a literal enclosed in double quotes |
| BbVar.QuoteRoundTrip | lib/bb/var.rb:148-155 | unquoting an inspected string gives the string back, so the quoted default keeps its value |
| BbVar.QuoteInjective | lib/bb/var.rb:148-155 | distinct defaults get distinct literals |
| BbVar.FromXsAttribute | lib/bb/var.rb:87-162 | it fails exactly when there is no type or restriction base (the no-type error), or when a trait has no optional default (`CellTypeWithoutDefault` for `cellType`, `DelimsWithoutDefault` for `delims`); `cellType`/`delims` never give a field; a field is named `class_name` for `class` and the name otherwise, keeps the XML name, takes its reference from its name, has the mapped type, attribute storage, no collection flag, and carries the default exactly when the attribute is optional with one (verbatim unless a String) |
| BbVar.CellTypeOfDefault | lib/bb/var.rb:117-138 | a `cellType` default in the table signals its mapped type with cells not ids; any other default signals itself with cells as ids |
| BbVar.StringDefaultQuoted | lib/bb/var.rb:148-155 | a String field's default unquotes to the declared default |
| BbClass.FixName | lib/bb/class.rb:79-81 | same length; the first character upper-cased and no longer a lower-case letter; the rest unchanged; empty or newline-led names unchanged |
| BbClass.FixNameIdempotent | lib/bb/class.rb:79-81 | fixing a fixed name changes nothing |
| BbClass.FixNameEqual | lib/bb/class.rb:79-81 | two names fix to the same name exactly when their first letters agree up to case and the rests are equal |
| BbClass.Downcase | lib/bb/class.rb:161 | same length; no upper-case letter is left; every other character is kept, and each upper-case letter becomes its lower-case form |
| BbClass.RunDigits | lib/bb/class.rb:158 | the digits read are all digits, no more than the text holds, and none unless the text starts with a digit |
| BbClass.RunDigitsUnderscore | lib/bb/class.rb:158 | one underscore between two digit runs is skipped |
| BbClass.RunDigitsDoubleUnderscore | lib/bb/class.rb:158 | two underscores in a row end the digits |
| BbClass.ToI | lib/bb/class.rb:158 | `to_i` is 0 unless the text, after leading white space, starts with a digit or a sign |
| BbClass.ToIOfDecimal | lib/bb/class.rb:157-158 | `to_i` of a decimal digit string is its value |
| BbClass.ToIOfNegatedDecimal | lib/bb/class.rb:157-158 | a minus sign before a decimal negates it |
| BbClass.ToIOfPrefixed | lib/bb/class.rb:157-158 | the base-10 prefix `0d` is skipped: `0d12` reads as 12 |
| BbClass.ToIOfUnderscored | lib/bb/class.rb:157-158 | digit groups joined by one underscore read as one number: `1_000` is 1000 |
| BbClass.ToIOfDoubleUnderscore | lib/bb/class.rb:157-158 | a doubled underscore ends the number: `1__2` is 1 |
| BbClass.ToIOfFormatInt | lib/bb/class.rb:157-158 | `to_i` reads back every integer's text |
| BbClass.IsCollection | lib/bb/class.rb:155-158 | the collection flag is absent exactly when `maxOccurs` is absent; its value for counts is stated by `CollectionOfCount`, `CollectionOfUnderscored` and `CollectionOfPrefixed` |
| BbClass.CollectionOfCount | lib/bb/class.rb:157-158 | a numeric `maxOccurs` n makes a collection exactly when n > 1 |
| BbClass.CollectionOfUnderscored | lib/bb/class.rb:157-158 | a `maxOccurs` such as `1_0` is a collection exactly when its digits, read as one number, exceed 1 |
| BbClass.CollectionOfPrefixed | lib/bb/class.rb:157-158 | a `maxOccurs` such as `0d5` is a collection exactly when the number after the prefix exceeds 1 |
| BbClass.SubelementVar | lib/bb/class.rb:154-167 | a reference R gives the field named `downcase R`, typed `fix_name R`, with XML name R and subelement storage, and it is a collection exactly when `maxOccurs` is `unbounded` or reads above 1 |
| BbClass.ParametersVar | lib/bb/class.rb:171-179 | the parameters field is `parameters`, typed Object, with parameters storage and default `{}` |
| BbClass.RefVar | lib/bb/class.rb:140-145 | `parameters` gets the parameters storage and every other reference gets the subelement storage |
| BbClass.TextVar | lib/bb/class.rb:198-212 | no dim gives `text` of String, dim 0 gives `value` of the cell type, a positive dim gives `cells` of Array; all text storage |
| BbClass.SimpleTypeVar | lib/bb/class.rb:214-222 | fails exactly when there is neither type nor restriction, or the type is unmapped; otherwise it is the `text` field of the mapped type |
| BbClass.Fresh | lib/bb/class.rb:51-63 | a new class has no fields, constants or traits, is not referenced, accepts no extra attribute and carries the fixed name |
| BbClass.MergeAttr | lib/bb/class.rb:181-196 | fails exactly when the attribute fails, or a cell type or delims differ from those already recorded; otherwise a field attribute appends its field, a cell-type attribute records its type and ids flag, and a delims attribute records the delims and sets dim to their size, each changing nothing else; the traits stay consistent |
| BbClass.GroupVars | lib/bb/class.rb:132-146 | a group's fields are its descendant elements' reference fields in document order |
| BbClass.NodeVars | lib/bb/class.rb:133-146 | at most one field per element |
| BbClass.NodeVarsOfRefs | lib/bb/class.rb:133-146 | when every element has a `ref`, there is one field per element, in order, each the reference field of that `ref` |
| BbClass.NodeVarsNotText | lib/bb/class.rb:140-145 | no group field is stored as text |
| BbClass.AddGroupVars | lib/bb/class.rb:132-146 | on success exactly the group's reference fields are appended |
| BbClass.GroupVarsSucceeds | lib/bb/class.rb:133-138 | a group succeeds exactly when every descendant element has a `ref` |
| BbClass.AddGroupVarsSucceeds | lib/bb/class.rb:133-138 | the same, for the class being built |
| BbClass.AddChild | lib/bb/class.rb:124-151 | an unknown child kind is the unhandled-element error; otherwise the child's fields are appended, a wildcard sets any-attribute, and traits stay consistent |
| BbClass.AddChildren | lib/bb/class.rb:123-152 | processing the children never changes a class's name, package, constants or reference state |
| BbClass.AddChildrenFields | lib/bb/class.rb:123-152 | the fields appended are the children's fields in document order |
| BbClass.AddChildrenAnyAttr | lib/bb/class.rb:129-130 | any-attribute is set exactly when a wildcard is among the children |
| BbClass.AddChildrenTraits | lib/bb/class.rb:126-127 | traits stay consistent, and a recorded cell type or delims survive all children |
| BbClass.AddChildKeepsTraits | lib/bb/class.rb:124-150 | a child that declares no cell type leaves the cell type and ids flag; one that declares no delims leaves delims and dim |
| BbClass.AddChildRecordsTrait | lib/bb/class.rb:184-195 | a child that declares a trait records the declared value |
| BbClass.AddChildrenTraitRecorded | lib/bb/class.rb:123-196 | a trait declared by any child is the one the class ends up with, and dim is the size of the delims |
| BbClass.AddChildrenTraitUndeclared | lib/bb/class.rb:123-152 | without a child that declares a trait, the class keeps the one it had |
| BbClass.AddChildrenTraitsExact | lib/bb/class.rb:123-196 | from a class without traits, a trait is set exactly when some child declares it, and then it is the declared value |
| BbClass.UnhandledChildFails | lib/bb/class.rb:148-149 | one child of unknown kind anywhere fails the whole element |
| BbClass.ChildrenFieldsNotText | lib/bb/class.rb:123-152 | no child yields a text field |
| BbClass.ChildFieldsNotText | lib/bb/class.rb:124-150 | the fields of one attribute or group child are never text fields |
| BbClass.BuildVars | lib/bb/class.rb:103-116 | building fields never changes the class's identity |
| BbClass.BuildVarsFields | lib/bb/class.rb:103-121 | the appended fields are the element's fields; a text field is among them exactly when the type is mixed or there is no complex type, and it is then the last field |
| BbClass.MixedVarsFields | lib/bb/class.rb:118-121 | a mixed type gets the children's fields and then the text field, last |
| BbClass.PlainVarsFields | lib/bb/class.rb:110 | a type that is not mixed gets the children's fields only, none of them text |
| BbClass.ComplexVarsFields | lib/bb/class.rb:106-121 | for a complex type, the text field appears exactly when it is mixed, after all other fields |
| BbClass.BuildVarsTraits | lib/bb/class.rb:103-121 | traits stay consistent, and any-attribute is set exactly when the complex type declares a wildcard |
| BbClass.AnyVarNamed | lib/bb/class.rb:94 | finds a field of the given name exactly when there is one |
| BbClass.BuildClass | lib/bb/class.rb:87-101 | the class takes the fixed element name, the XML name and the package name; the schema-version constant is added exactly when a `schemaVersion` field exists |
| BbClass.ClassFromElementShape | lib/bb/class.rb:83-101 | a class built from an element has the element's fields, consistent traits, is not referenced, accepts any attribute exactly when it declares a wildcard, and holds only the SchemaVersion constant exactly when it has a `schemaVersion` field |
| BbClass.ClassFromElementTraits | lib/bb/class.rb:83-196 | a class built from an element has a cell type exactly when one of its attributes declares one, and then the declared one; likewise delims, with dim their size |
| BbClass.ClassDef.constructor | lib/bb/class.rb:51-63 | the new object's state is the fresh class |
| BbClass.ClassDef.MarkReferenced | lib/bb/class.rb:70-73 | sets referenced and records the reference name; nothing else changes |
| BbClass.ClassDef.FromElement | lib/bb/class.rb:83-85 | a new object, populated as the builder says, not referenced |
| BbClass.ClassDef.PopulateFromElement | lib/bb/class.rb:87-101 | the outcome and new state are those of the builder |
| BbClass.ClassDef.SetNames | lib/bb/class.rb:88-90 | sets the fixed name, XML name and package name |
| BbClass.ClassDef.AddSchemaConst | lib/bb/class.rb:94-96 | adds the SchemaVersion constant when a `schemaVersion` field exists |
| BbClass.ClassDef.PopulateVarsFromElement | lib/bb/class.rb:103-116 | the outcome and new state are those of `BuildVars` |
| BbClass.ClassDef.PopulateVarsFromMixed | lib/bb/class.rb:118-121 | the children's state followed by the text field |
| BbClass.ClassDef.PopulateVarsFromSubelements | lib/bb/class.rb:123-152 | the loop ends in the state `AddChildren` describes |
| BbClass.ClassDef.PopulateFromChild | lib/bb/class.rb:125-150 | one child's step, as `AddChild` says |
| BbClass.ClassDef.AcceptAnyAttribute | lib/bb/class.rb:129-130 | sets any-attribute only |
| BbClass.ClassDef.PopulateGroupVars | lib/bb/class.rb:133-146 | the loop over a group's elements ends in the state `AddGroupVars` describes |
| BbClass.ClassDef.PopulateVarFromSubelement | lib/bb/class.rb:154-167 | appends exactly the subelement field |
| BbClass.ClassDef.PopulateParametersVar | lib/bb/class.rb:171-179 | appends exactly the parameters field |
| BbClass.ClassDef.PopulateVarFromAttr | lib/bb/class.rb:181-196 | the outcome and state are those of `MergeAttr`; a failure leaves the class unchanged |
| BbClass.ClassDef.PopulateTextVar | lib/bb/class.rb:198-212 | appends the text field chosen by dim |
| BbClass.ClassDef.PopulateVarsFromSimpleType | lib/bb/class.rb:214-222 | appends the simple-type text field or fails as `SimpleTypeVar` says |
| Xsd.Descendants | lib/bb/class.rb:133 | no more elements than nodes |
| Xsd.SiblingsAreDescendants | lib/bb/class.rb:133 | every element directly in a group is among its descendants |
| Xsd.DeclaredType | lib/bb/var.rb:96-105 | the `type` attribute wins; otherwise the restriction's base; none exactly when both are missing (an attribute's type here, and a simple element's type at lib/bb/class.rb:216-217) |
| Xsd.Own | lib/bb/class.rb:133 | a node contributes one declaration exactly when it is an element |
| Xsd.InDescendants | lib/bb/class.rb:133 | a declaration is returned exactly when some element at any depth makes it |
| Xsd.DescendantsAround | lib/bb/class.rb:133 | document order around any node: those before it, the node itself, those nested inside it, then those after it |
| Xsd.DescendantsAppend | lib/bb/class.rb:133 | the descendants of two forests side by side are the first's, then the second's |
| Xsd.NoElementsNoDescendants | lib/bb/class.rb:133 | a forest without elements returns none |
| BbPackage.FindFirst | lib/bb/package.rb:51 | the first matching index: it matches and no earlier entry does; none when no entry matches |
| BbPackage.Handle | lib/bb/package.rb:49-62 | resolving one reference keeps one name per class and marks only classes |
| BbPackage.Resolve | lib/bb/package.rb:35-47 | resolving references in order keeps one name per class and marks only classes |
| BbPackage.ResolveFails | lib/bb/package.rb:53-55 | the scan succeeds exactly when every reference names some class; a failure names the first reference that does not |
| BbPackage.ResolveKeepsMarks | lib/bb/package.rb:57-61 | an already-referenced class keeps its reference name, and nothing marked is dropped |
| BbPackage.ResolveMarksTargets | lib/bb/package.rb:49-61 | after a successful scan every referenced target is marked |
| BbPackage.ResolveFirstReferrer | lib/bb/package.rb:57-61 | an unmarked class ends up named by the un-normalised name of the first reference that resolves to it, and unmarked if none does |
| BbPackage.ResolveTracks | lib/bb/package.rb:57-61 | the classes listed are exactly those newly marked, each once, and earlier marks do not change |
| BbPackage.ResolveIdempotent | lib/bb/package.rb:57-61 | scanning the same references again marks nothing new |
| BbPackage.ResolveAllMarked | lib/bb/package.rb:57-61 | references whose targets are all marked change nothing |
| BbPackage.ResolveAppend | lib/bb/package.rb:36-46 | resolving two runs of references is resolving the first and then the second |
| BbPackage.ReachedOfResolved | lib/bb/package.rb:35-62 | when every reference resolves, the marks left are those of the successful scan |
| BbPackage.ReachedBeforeFailure | lib/bb/package.rb:49-55 | when reference `p` is the first that does not resolve, the marks left are those of resolving the references before it |
| BbPackage.ReachedAppend | lib/bb/package.rb:36-46 | over two runs of references, the second is handled only when the first resolved |
| BbPackage.MapResult | lib/bb/package.rb:29-32 | a successful map gives one result per element |
| BbPackage.MapResultEach | lib/bb/package.rb:29-32 | on success each result is the class built from the element at the same position |
| BbPackage.MapResultFirstFailure | lib/bb/package.rb:29-32 | the first element whose class fails decides the error |
| BbPackage.Package.constructor | lib/bb/package.rb:20-24 | a new package has the name and empty class and referenced lists |
| BbPackage.Package.PopulateFromSchema | lib/bb/package.rb:26-33 | stores the schema version; on success the classes are the ones built from the elements in order; on failure the classes are unchanged |
| BbPackage.Package.Keep | lib/bb/package.rb:29 | the package holds the built classes, and its shapes and marks join back to their states |
| BbPackage.Package.ClassesFromElements | lib/bb/package.rb:29-32 | the loop builds distinct class objects whose states are `BuildClasses` of the elements |
| BbPackage.Package.AppendClass | lib/bb/package.rb:29-31 | one element's class is built and appended to the distinct objects |
| BbPackage.Package.HandleReferenceType | lib/bb/package.rb:49-62 | the outcome and marks are those of `Handle`; an unresolved reference fails before any mark changes or any class is yielded; newly marked classes are yielded and appended to the referenced list; nothing else changes |
| BbPackage.Package.FindClass | lib/bb/package.rb:50-51 | finds the first class named by the fixed reference name |
| BbPackage.Package.MarkClass | lib/bb/package.rb:57-61 | an already-referenced class is left alone; otherwise it is marked with the name, yielded and listed once |
| BbPackage.Package.ScanForReferenceTypes | lib/bb/package.rb:35-47 | the outcome and marks are those of resolving all classes' references in order; the referenced list grows by the newly marked classes in marking order; after a failure the marks and the referenced list are those reached before the failing reference (`Reached`); classes and their fields do not change |
| BbPackage.Package.ScanStep | lib/bb/package.rb:36-46 | one class of the scan, preserving the loop's invariant; on failure it leaves the state reached before the failing reference |
| BbPackage.ScanStepOutcome | lib/bb/package.rb:36-46 | the whole remaining scan's outcome and reached state follow from those of the class at hand |
| BbPackage.Package.ScanClass | lib/bb/package.rb:37-45 | the cell type is resolved first when cells are ids, then each field's reference; a failure leaves the state reached before it |
| BbPackage.Package.ScanFields | lib/bb/package.rb:41-45 | the fields' references are resolved in field order; a failure leaves the state reached before it |
| Generative.Spaces | lib/bb/generative.rb:18 | n spaces |
| Generative.Flatten | lib/bb/generative.rb:11-23 | one line per leaf |
| Generative.FlattenIsIndentedLeaves | lib/bb/generative.rb:11-23 | the flattened lines are the leaves in depth-first order, each prefixed by two spaces per nesting level |
| Generative.TopLevelLines | lib/bb/generative.rb:11-19 | from the top, there is one line per leaf, and the leaf at level k gets 2k spaces |
| Generative.IndentedDeeper | lib/bb/generative.rb:16 | a nested block is indented two more spaces |
| Generative.FlattenAppend | lib/bb/generative.rb:13-21 | lines are processed left to right: flattening a concatenation concatenates the results |
| Generative.EmptyBlock | lib/bb/generative.rb:13-22 | an empty nested block contributes no lines |
| Generative.Output.Push | lib/bb/generative.rb:19 | appends one line |
| Generative.Indent | lib/bb/generative.rb:11-23 | succeeds exactly when no nil is nested anywhere; then appends exactly the flattened lines after the existing ones, which are kept |
| Generative.Compact | lib/bb/generative.rb:7 | drops nils: what remains is no longer, holds no nil and only lines of the input |
| Generative.CompactOfNilFree | lib/bb/generative.rb:7 | lines without nils are unchanged |
| Generative.CompactAppend | lib/bb/generative.rb:7 | compacting a concatenation compacts each part |
| Generative.CompactNilFree | lib/bb/generative.rb:7 | after compacting, no nil is left exactly when no block holds one |
| Generative.Generated | lib/bb/generative.rb:6-8 | there is a text exactly when no block holds a nil; for lines without nils it is the flattened lines joined by newlines |
| Generative.GenString | lib/bb/generative.rb:6-8 | the string is the compacted, flattened lines joined by newlines |
| Generative.GeneratedLines | lib/bb/generative.rb:6-8 | when leaves are non-empty single lines, splitting the generated string on newlines gives back the indented lines |

## Left out

- ArrayText.Numeric: accepts only optionally signed decimal integers without leading zeros. Ruby's `Integer()` also reads other integer spellings: `0x`/`0b`/`0o` prefixes, the decimal prefix `0d`, leading-zero octal and underscores. The model deliberately keeps the token grammar to plain decimal integers, so these read as not numeric even though they are integers in Ruby. Separately, the `Float()` fallback reads decimals and exponents; those also read as not numeric, because floating point is not modelled.
- Names are assumed present: `Element.name` and `Attribute.name` are plain strings. An `xs:element` or `xs:attribute` without a `name` makes `attributes["name"].value` (lib/bb/class.rb:88, lib/bb/var.rb:88) raise `NoMethodError`; that case is not modelled.
- ParseExamples: the test at test/parse.rb:103 (`" 1.23 "`) needs the float fallback and is not stated.
- `symbolic` (test/parse.rb:16-18) is not called by `parse` and is not modelled.
- BbClass.FixName: upper-cases ASCII letters only. BbClass.Downcase lowers ASCII letters only. Ruby maps the full Unicode case tables.
- BbVar.Quote: models `String#inspect` for ASCII text. Other characters are kept as they are, and encodings are not modelled.
- BbClass.BuildClass: the failure is propagated as the error value. Appending the element text to the exception message (lib/bb/class.rb:98-100) is not modelled.
- BbClass.ClassDef.PopulateFromElement, BbClass.ClassDef.PopulateVarsFromSubelements, BbClass.ClassDef.PopulateGroupVars: on failure the partial state of the object is not stated, because Ruby discards the object when the exception escapes `from_element`.
- Nokogiri and XPath are not part of this model. The `Xsd` datatypes stand for the parsed schema, and `Descendants` stands for `.//xs:element`.
- The code writers (`gen_lines`, `gen_xml_importer`, `gen_xml_exporter`, `gen_inspect`, `gen_string_from_class`, the `fully_qualified_class_name` helper) are not part of this model. `GenString` takes the lines `gen_lines` would return as its argument.
- Generative.Indent: a line is a text, a nested block or nil. A nil inside a block makes Ruby raise `NoMethodError`, and the model reports that as failure. Lines of other Ruby types are not modelled.
- `ArrayText.emit` is not part of this model. The renderer in `ArrayTextRoundTrip` is this model's own, written only to state round trips of `Parse`.
- Blocks given to `populate_from_schema`, `scan_for_reference_types` and `handle_reference_type` are not modelled. The classes the scan yields are the ones it appends to the referenced list, and `HandleReferenceType` returns them.
- The back-reference from each field and constant to its owning class (`bb_class`, `self`) is not modelled.
- lib/bb/const.rb is carried as the `Const` datatype only.
- The command-line program, schema validation (lib/validate.rb, bin/validate.rb) and test/test.rb are not part of this model.
- BbPackage.Package.PopulateFromSchema: states the built classes' values and that the objects are distinct. It does not state that the objects are freshly allocated.
- BbPackage.Package.ScanForReferenceTypes: states that the referenced list grows by the marked classes in marking order. That this list has no duplicates is proved on indices, by `ResolveTracks`, rather than on the objects.
