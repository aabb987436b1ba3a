/**
 * The indentation flattener every code generator uses: nested line lists,
 * where a nested list is an indented block, become a flat list of lines
 * prefixed with two spaces per level of nesting, and then one string.
 */
module Generative {
  import opened Wrappers
  import ArrayText

  /** A generated line: a string, a nested block of lines, or a Ruby `nil`. */
  datatype Line = Text(s: string) | Block(lines: seq<Line>) | Nil

  /** `" " * n`. */
  function Spaces(n: nat): (r: string)
    ensures |r| == n && forall k :: 0 <= k < n ==> r[k] == ' '
  {
    seq(n, _ => ' ')
  }

  /** No `nil` anywhere, at any depth: `indent` calls `sub` on every leaf, which `nil` lacks. */
  predicate NilFree(ls: seq<Line>)
    decreases ls
  {
    ls == [] || (!ls[0].Nil? && (ls[0].Block? ==> NilFree(ls[0].lines)) && NilFree(ls[1..]))
  }

  /**
   * The lines `indent` appends for `ls` at `depth` spaces: each leaf in
   * order with the depth's spaces in front of it, each block two spaces
   * deeper.  The prefix goes before the first character only; the rest of
   * the leaf is kept as it is, interior newlines included.
   */
  function Flatten(ls: seq<Line>, depth: nat): (r: seq<string>)
    requires NilFree(ls)
    ensures |r| == |Leaves(ls)|
    decreases ls
  {
    if ls == [] then []
    else
      (match ls[0]
       case Text(s) => [Spaces(depth) + s]
       case Block(b) => Flatten(b, depth + 2)) + Flatten(ls[1..], depth)
  }

  // ---------------------------------------------------------------------
  // A reference definition: the leaves with their nesting levels
  // ---------------------------------------------------------------------

  /** The string leaves in left-to-right depth-first order, each with its nesting level (top level 0). */
  function Leaves(ls: seq<Line>): seq<(nat, string)>
    decreases ls
  {
    if ls == [] then []
    else
      (match ls[0]
       case Text(s) => [(0, s)]
       case Block(b) => Deeper(Leaves(b))
       case Nil => []) + Leaves(ls[1..])
  }

  /** The same leaves one level deeper. */
  function Deeper(xs: seq<(nat, string)>): (r: seq<(nat, string)>)
    ensures |r| == |xs| && forall k :: 0 <= k < |xs| ==> r[k] == (xs[k].0 + 1, xs[k].1)
  {
    seq(|xs|, k requires 0 <= k < |xs| => (xs[k].0 + 1, xs[k].1))
  }

  /** Each leaf prefixed with two spaces per level, below a block already `depth` spaces deep. */
  function Indented(xs: seq<(nat, string)>, depth: nat): (r: seq<string>)
    ensures |r| == |xs| && forall k :: 0 <= k < |xs| ==> r[k] == Spaces(depth + 2 * xs[k].0) + xs[k].1
  {
    seq(|xs|, k requires 0 <= k < |xs| => Spaces(depth + 2 * xs[k].0) + xs[k].1)
  }

  lemma IndentedAppend(xs: seq<(nat, string)>, ys: seq<(nat, string)>, depth: nat)
    ensures Indented(xs + ys, depth) == Indented(xs, depth) + Indented(ys, depth)
  {
    var l, r := Indented(xs + ys, depth), Indented(xs, depth) + Indented(ys, depth);
    forall k | 0 <= k < |l| ensures l[k] == r[k] {
      if k >= |xs| {
        assert (xs + ys)[k] == ys[k - |xs|];
      }
    }
  }

  lemma IndentedDeeper(xs: seq<(nat, string)>, depth: nat)
    ensures Indented(Deeper(xs), depth) == Indented(xs, depth + 2)
  {
  }

  /**
   * `indent` yields exactly the leaves, in depth-first order, a leaf at
   * nesting level k prefixed with 2k more spaces than the top level.
   */
  lemma {:induction false} FlattenIsIndentedLeaves(ls: seq<Line>, depth: nat)
    requires NilFree(ls)
    ensures Flatten(ls, depth) == Indented(Leaves(ls), depth)
    decreases ls
  {
    if ls != [] {
      FlattenIsIndentedLeaves(ls[1..], depth);
      match ls[0]
      case Text(s) =>
        IndentedAppend([(0, s)], Leaves(ls[1..]), depth);
      case Block(b) =>
        FlattenIsIndentedLeaves(b, depth + 2);
        IndentedDeeper(Leaves(b), depth);
        IndentedAppend(Deeper(Leaves(b)), Leaves(ls[1..]), depth);
    }
  }

  /** At the top level: one line per leaf, the i-th leaf at level k behind 2k spaces. */
  lemma TopLevelLines(ls: seq<Line>)
    requires NilFree(ls)
    ensures |Flatten(ls, 0)| == |Leaves(ls)|
    ensures forall i :: 0 <= i < |Leaves(ls)| ==>
      Flatten(ls, 0)[i] == Spaces(2 * Leaves(ls)[i].0) + Leaves(ls)[i].1
  {
    FlattenIsIndentedLeaves(ls, 0);
  }

  // ---------------------------------------------------------------------
  // Flattening piecewise
  // ---------------------------------------------------------------------

  lemma {:induction false} NilFreeAppend(a: seq<Line>, b: seq<Line>)
    ensures NilFree(a + b) <==> NilFree(a) && NilFree(b)
    decreases a
  {
    if a == [] {
      assert a + b == b;
    } else {
      assert (a + b)[0] == a[0] && (a + b)[1..] == a[1..] + b;
      NilFreeAppend(a[1..], b);
    }
  }

  /** The lines of two lists one after the other are the lines of each, in order. */
  lemma {:induction false} FlattenAppend(a: seq<Line>, b: seq<Line>, depth: nat)
    requires NilFree(a) && NilFree(b)
    ensures NilFree(a + b) && Flatten(a + b, depth) == Flatten(a, depth) + Flatten(b, depth)
    decreases a
  {
    NilFreeAppend(a, b);
    if a == [] {
      assert a + b == b;
    } else {
      assert (a + b)[0] == a[0] && (a + b)[1..] == a[1..] + b;
      FlattenAppend(a[1..], b, depth);
    }
  }

  /** An empty block contributes no lines. */
  lemma EmptyBlock(ls: seq<Line>, depth: nat)
    requires NilFree(ls)
    ensures NilFree([Block([])] + ls) && Flatten([Block([])] + ls, depth) == Flatten(ls, depth)
  {
    var l := [Block([])] + ls;
    assert l[0] == Block([]) && l[1..] == ls;
  }

  // ---------------------------------------------------------------------
  // `indent`, appending into a shared result
  // ---------------------------------------------------------------------

  /** The `result` array `indent` appends to. */
  class Output {
    var lines: seq<string>

    constructor ()
      ensures lines == []
    {
      lines := [];
    }

    /** `result << line`. */
    method Push(line: string)
      modifies this
      ensures lines == old(lines) + [line]
    {
      lines := lines + [line];
    }
  }

  /**
   * `indent(lines, result, depth)`: the lines of `ls` appended to `result`,
   * blocks through a recursive call two spaces deeper.  A `nil` anywhere
   * makes it stop (Ruby raises on `nil.sub`); the lines already present
   * stay in front either way.
   */
  method Indent(ls: seq<Line>, result: Output, depth: nat) returns (ok: bool)
    modifies result
    ensures ok == NilFree(ls)
    ensures ok ==> result.lines == old(result.lines) + Flatten(ls, depth)
    ensures old(result.lines) <= result.lines
    decreases ls
  {
    var spaces: Option<string> := None;
    var i := 0;
    while i < |ls|
      invariant 0 <= i <= |ls| && NilFree(ls[..i])
      invariant result.lines == old(result.lines) + Flatten(ls[..i], depth)
      invariant spaces.None? || spaces == Some(Spaces(depth))
    {
      ghost var before := result.lines;
      match ls[i] {
        case Block(b) =>
          ok := Indent(b, result, depth + 2);
          if !ok {
            NilFreeStops(ls, i);
            return;
          }
        case Text(s) =>
          if spaces.None? {
            spaces := Some(Spaces(depth));
          }
          result.Push(spaces.value + s);
        case Nil =>
          NilFreeStops(ls, i);
          return false;
      }
      ghost var added := if ls[i].Text? then [Spaces(depth) + ls[i].s] else Flatten(ls[i].lines, depth + 2);
      assert result.lines == before + added;
      FlattenSnoc(ls, i, depth);
      Assoc(old(result.lines), Flatten(ls[..i], depth), added);
      i := i + 1;
    }
    assert ls[..i] == ls;
    ok := true;
  }

  lemma Assoc<T>(a: seq<T>, b: seq<T>, c: seq<T>)
    ensures a + b + c == a + (b + c)
  {
  }

  /** A `nil` at `i`, or inside the block at `i`, makes the whole list not free of `nil`. */
  lemma NilFreeStops(ls: seq<Line>, i: nat)
    requires i < |ls| && (ls[i].Nil? || (ls[i].Block? && !NilFree(ls[i].lines)))
    ensures !NilFree(ls)
  {
    NilFreeAppend(ls[..i], ls[i..]);
    assert ls[i..][0] == ls[i];
    assert ls[..i] + ls[i..] == ls;
  }

  /** One more line after the first `i`: its own lines follow theirs. */
  lemma FlattenSnoc(ls: seq<Line>, i: nat, depth: nat)
    requires i < |ls| && NilFree(ls[..i]) && !ls[i].Nil? && (ls[i].Block? ==> NilFree(ls[i].lines))
    ensures NilFree(ls[..i + 1])
    ensures Flatten(ls[..i + 1], depth) == Flatten(ls[..i], depth) +
      (if ls[i].Text? then [Spaces(depth) + ls[i].s] else Flatten(ls[i].lines, depth + 2))
  {
    assert ls[..i + 1] == ls[..i] + [ls[i]];
    assert NilFree([ls[i]]);
    FlattenAppend(ls[..i], [ls[i]], depth);
  }

  // ---------------------------------------------------------------------
  // `gen_string`
  // ---------------------------------------------------------------------

  /** `compact`: the top-level lines without the `nil`s, in order; nested ones are kept. */
  function Compact(ls: seq<Line>): (r: seq<Line>)
    ensures |r| <= |ls|
    ensures forall k :: 0 <= k < |r| ==> !r[k].Nil? && r[k] in ls
    decreases ls
  {
    if ls == [] then []
    else if ls[0].Nil? then Compact(ls[1..])
    else [ls[0]] + Compact(ls[1..])
  }

  /** Compacting keeps every line that is not `nil`, in order, and drops only `nil`s. */
  lemma {:induction false} CompactAppend(a: seq<Line>, b: seq<Line>)
    ensures Compact(a + b) == Compact(a) + Compact(b)
    decreases a
  {
    if a == [] {
      assert a + b == b;
    } else {
      assert (a + b)[0] == a[0] && (a + b)[1..] == a[1..] + b;
      CompactAppend(a[1..], b);
    }
  }

  lemma {:induction false} CompactOfNilFree(ls: seq<Line>)
    ensures NilFree(ls) ==> Compact(ls) == ls
    decreases ls
  {
    if ls != [] && NilFree(ls) {
      CompactOfNilFree(ls[1..]);
      ConsSplit(ls);
    }
  }

  /** After compacting, no `nil` is left exactly when no block holds one. */
  lemma {:induction false} CompactNilFree(ls: seq<Line>)
    ensures NilFree(Compact(ls)) <==> forall k :: 0 <= k < |ls| && ls[k].Block? ==> NilFree(ls[k].lines)
    decreases ls
  {
    if ls != [] {
      CompactNilFree(ls[1..]);
      assert forall k :: 1 <= k < |ls| ==> ls[k] == ls[1..][k - 1];
      if !ls[0].Nil? {
        var c := [ls[0]] + Compact(ls[1..]);
        assert c[0] == ls[0] && c[1..] == Compact(ls[1..]);
      }
    }
  }

  /**
   * The generated text: the compacted lines flattened from the top level and
   * joined with newlines.  Top-level `nil`s are dropped, so there is a text
   * exactly when no block holds a `nil`.
   */
  function Generated(ls: seq<Line>): (r: Option<string>)
    ensures r.Some? <==> forall k :: 0 <= k < |ls| && ls[k].Block? ==> NilFree(ls[k].lines)
    ensures NilFree(ls) ==> r == Some(ArrayText.Join(Flatten(ls, 0), '\n'))
  {
    CompactNilFree(ls);
    CompactOfNilFree(ls);
    var c := Compact(ls);
    if NilFree(c) then Some(ArrayText.Join(Flatten(c, 0), '\n')) else None
  }

  /** `gen_string`: `indent(gen_lines.compact).join("\n")`, with the generated lines given. */
  method GenString(ls: seq<Line>) returns (r: Option<string>)
    ensures r == Generated(ls)
  {
    var c := Compact(ls);
    var result := new Output();
    var ok := Indent(c, result, 0);
    if ok {
      assert result.lines == Flatten(c, 0);
      r := Some(ArrayText.Join(result.lines, '\n'));
    } else {
      r := None;
    }
  }

  /**
   * When every leaf is a non-empty line, splitting the generated text at
   * newlines gives back the flattened lines.
   */
  lemma GeneratedLines(ls: seq<Line>)
    requires NilFree(Compact(ls))
    requires forall x :: x in Leaves(Compact(ls)) ==> x.1 != "" && '\n' !in x.1
    ensures Generated(ls).Some?
    ensures ArrayText.Split(Generated(ls).value, '\n') == Flatten(Compact(ls), 0)
  {
    var c := Compact(ls);
    var f := Flatten(c, 0);
    TopLevelLines(c);
    forall k | 0 <= k < |f| ensures f[k] != "" && '\n' !in f[k] {
      var x := Leaves(c)[k];
      assert x in Leaves(c);
      assert f[k] == Spaces(2 * x.0) + x.1;
    }
    ArrayText.SplitOfJoin(f, '\n');
  }
}
