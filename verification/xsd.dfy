/**
 * The already-parsed XML Schema tree the compiler reads, reduced to the
 * attributes and children it looks at, and the errors it raises.
 *
 * Element and attribute names stand for the `name` attributes of the
 * declarations; an absent optional attribute is None.
 */
module Xsd {
  import opened Wrappers

  /** An inline `xs:simpleType/xs:restriction`, with its optional `base`. */
  datatype Restriction = Restriction(base: Option<string>)

  /**
   * The XSD type a declaration gives: its `type` attribute, else the `base`
   * of its inline restriction; none when both are missing.
   */
  function DeclaredType(typeName: Option<string>, restriction: Option<Restriction>): (r: Option<string>)
    ensures typeName.Some? ==> r == typeName
    ensures r.Some? && typeName.None? ==> restriction.Some? && r == restriction.value.base
    ensures r.None? <==> typeName.None? && (restriction.None? || restriction.value.base.None?)
  {
    if typeName.Some? then typeName
    else if restriction.Some? then restriction.value.base
    else None
  }

  /** An `xs:attribute` declaration. */
  datatype Attribute = Attribute(
    name: string,
    typeName: Option<string>,          // the `type` attribute
    restriction: Option<Restriction>,  // the first inline restriction, if any
    use: Option<string>,
    default: Option<string>)

  /**
   * A node below a model group (`xs:all`, `xs:choice`, `xs:sequence`):
   * either an `xs:element` (with its `ref` and `maxOccurs`) or any other
   * node, each with the nodes nested inside it in document order.
   */
  datatype Node =
    | ElementNode(ref: Option<string>, maxOccurs: Option<string>, children: seq<Node>)
    | OtherNode(children: seq<Node>)

  /** The kinds of model group. */
  datatype GroupKind = All | Choice | Sequence

  /** A direct child of an `xs:complexType`, in the xs namespace. */
  datatype Child =
    | AttributeChild(attr: Attribute)
    | AnyAttributeChild
    | GroupChild(kind: GroupKind, particles: seq<Node>)
    | OtherChild(tag: string)   // annotation, simpleContent, ...

  datatype ComplexType = ComplexType(mixed: Option<string>, children: seq<Child>)

  /** A top-level `xs:element`: its first complex type, or else its simple type. */
  datatype Element = Element(
    name: string,
    complexType: Option<ComplexType>,
    typeName: Option<string>,
    restriction: Option<Restriction>)

  datatype Schema = Schema(version: Option<string>, elements: seq<Element>)

  /** Everything the compiler raises while reading a schema. */
  datatype Error =
    | NoTypeDeclaration(attribute: string)     // attribute with neither type nor restriction base
    | CellTypeWithoutDefault                   // cellType attribute without an optional default (a SyntaxError)
    | DelimsWithoutDefault                     // delims attribute without an optional default (a NoMethodError
                                               // in the source: `split` is called on the missing default)
    | ConflictingCellType(was: string, now: string)
    | ConflictingDelims(delims: string)
    | ElementWithoutRef                        // group element that is not a reference
    | UnhandledElement(tag: string)            // complex-type child of an unknown kind
    | MissingRestriction(element: string)      // simple element with neither type nor restriction
    | NoTextType(xsType: Option<string>)       // simple element whose type is not a scalar type
    | UnresolvedReference(name: string)        // reference to a class the package lacks

  /** What the compiler reads from an `xs:element` below a model group. */
  datatype ElementDecl = ElementDecl(ref: Option<string>, maxOccurs: Option<string>)

  /**
   * The `.//xs:element` descendants of a list of sibling nodes, in document
   * order: each node before the nodes nested inside it.
   */
  function Descendants(ns: seq<Node>): (r: seq<ElementDecl>)
    ensures |r| <= NodeCount(ns)
    decreases ns
  {
    if ns == [] then []
    else
      var n := ns[0];
      Own(n) + Descendants(n.children) + Descendants(ns[1..])
  }

  /** The declaration a node itself makes: one for an element, none otherwise. */
  function Own(n: Node): (r: seq<ElementDecl>)
    ensures |r| <= 1 && (r != [] <==> n.ElementNode?)
  {
    if n.ElementNode? then [ElementDecl(n.ref, n.maxOccurs)] else []
  }

  /** Whether an element node somewhere in the forest, at any depth, declares `d`. */
  predicate Declares(ns: seq<Node>, d: ElementDecl)
    decreases ns
  {
    exists k :: 0 <= k < |ns| && (d in Own(ns[k]) || Declares(ns[k].children, d))
  }

  /** The number of nodes in a forest. */
  function NodeCount(ns: seq<Node>): nat
    decreases ns
  {
    if ns == [] then 0 else 1 + NodeCount(ns[0].children) + NodeCount(ns[1..])
  }

  /** Every element among the siblings themselves is among the descendants. */
  lemma {:induction false} SiblingsAreDescendants(ns: seq<Node>, k: nat)
    requires k < |ns| && ns[k].ElementNode?
    ensures ElementDecl(ns[k].ref, ns[k].maxOccurs) in Descendants(ns)
    decreases ns
  {
    if k > 0 {
      SiblingsAreDescendants(ns[1..], k - 1);
    }
  }

  /** A forest without element nodes has no element descendants. */
  lemma {:induction false} NoElementsNoDescendants(ns: seq<Node>)
    requires forall k :: 0 <= k < |ns| ==> ns[k].OtherNode? && ns[k].children == []
    ensures Descendants(ns) == []
    decreases ns
  {
    if ns != [] {
      NoElementsNoDescendants(ns[1..]);
    }
  }

  /** The descendants of two forests side by side are those of the first, then those of the second. */
  lemma {:induction false} DescendantsAppend(a: seq<Node>, b: seq<Node>)
    ensures Descendants(a + b) == Descendants(a) + Descendants(b)
    decreases a
  {
    if a != [] {
      assert (a + b)[0] == a[0] && (a + b)[1..] == a[1..] + b;
      DescendantsAppend(a[1..], b);
    } else {
      assert a + b == b;
    }
  }

  /**
   * Document order around any node: the descendants of the nodes before it,
   * then the node itself, then the nodes nested inside it, then the
   * descendants of the nodes after it.
   */
  lemma DescendantsAround(ns: seq<Node>, k: nat)
    requires k < |ns|
    ensures Descendants(ns) ==
      Descendants(ns[..k]) + Own(ns[k]) + Descendants(ns[k].children) + Descendants(ns[k + 1..])
  {
    var tail := ns[k..];
    assert ns == ns[..k] + tail;
    DescendantsAppend(ns[..k], tail);
    DescendantsUnfold(tail);
    assert tail[0] == ns[k] && tail[1..] == ns[k + 1..];
    Regroup(Descendants(ns[..k]), Own(ns[k]), Descendants(ns[k].children), Descendants(ns[k + 1..]));
  }

  lemma DescendantsUnfold(ns: seq<Node>)
    requires ns != []
    ensures Descendants(ns) == Own(ns[0]) + Descendants(ns[0].children) + Descendants(ns[1..])
  {
  }

  lemma Regroup<T>(a: seq<T>, b: seq<T>, c: seq<T>, d: seq<T>)
    ensures a + (b + c + d) == a + b + c + d
  {
  }

  /** A declaration is among the descendants exactly when some element node, at any depth, makes it. */
  lemma {:induction false} InDescendants(ns: seq<Node>, d: ElementDecl)
    ensures d in Descendants(ns) <==> Declares(ns, d)
    decreases ns
  {
    if ns != [] {
      InDescendants(ns[0].children, d);
      InDescendants(ns[1..], d);
      if Declares(ns[1..], d) {
        var k :| 0 <= k < |ns[1..]| && (d in Own(ns[1..][k]) || Declares(ns[1..][k].children, d));
        assert ns[k + 1] == ns[1..][k];
      }
      if Declares(ns, d) {
        var k :| 0 <= k < |ns| && (d in Own(ns[k]) || Declares(ns[k].children, d));
        if k > 0 {
          assert ns[1..][k - 1] == ns[k];
          assert Declares(ns[1..], d);
        }
      }
      if d in Own(ns[0]) || Declares(ns[0].children, d) {
        assert Declares(ns, d);
      }
    }
  }
}
