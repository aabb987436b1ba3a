/**
 * The package (lib/bb/package.rb): one class per top-level element of the
 * schema, then a second pass that resolves every reference by id (the cell
 * type of a class whose cells are ids, and every `_id` field) to the class
 * of that name, marking each target class once.
 *
 * The resolver is specified first on values: the names of the classes, the
 * reference name recorded for each (Some exactly when it is referenced), and
 * the references in the order the scan visits them.  The Package class then
 * performs the scan in place on its ClassDef objects and is proved to agree.
 */
module BbPackage {
  import opened Wrappers
  import opened Xsd
  import opened BbVar
  import opened BbClass

  // ---------------------------------------------------------------------
  // The references a class asks to resolve
  // ---------------------------------------------------------------------

  /** The references of the fields, in field order. */
  function VarReferences(vars: seq<Var>): seq<string> {
    if vars == [] then []
    else (if vars[0].references.Some? then [vars[0].references.value] else []) + VarReferences(vars[1..])
  }

  /** A class's references: its cell type first when its cells are ids, then its fields'. */
  function ClassReferences(st: ClassState): seq<string> {
    (if st.cellsAreIds && st.cellType.Some? then [st.cellType.value] else []) + VarReferences(st.vars)
  }

  /** The references of all the classes, class by class, in the order the scan visits them. */
  function ReferenceNames(sts: seq<ClassState>): seq<string> {
    if sts == [] then [] else ClassReferences(sts[0]) + ReferenceNames(sts[1..])
  }

  // ---------------------------------------------------------------------
  // Resolving references
  // ---------------------------------------------------------------------

  /** The index of the first entry equal to `x`. */
  function FindFirst(names: seq<Option<string>>, x: Option<string>): (r: Option<nat>)
    ensures r.Some? ==> r.value < |names| && names[r.value] == x
    ensures r.Some? ==> forall k :: 0 <= k < r.value ==> names[k] != x
    ensures r.None? ==> forall k :: 0 <= k < |names| ==> names[k] != x
  {
    if names == [] then None
    else if names[0] == x then Some(0)
    else
      var r := FindFirst(names[1..], x);
      if r.Some? then Some(r.value + 1) else None
  }

  /** The class a reference resolves to: the first one whose name is the fixed reference name. */
  function Target(names: seq<Option<string>>, ref: string): Option<nat> {
    FindFirst(names, Some(FixName(ref)))
  }

  /**
   * The resolver's state: the reference name recorded for every class
   * (Some exactly when the class is referenced), and the indices of the
   * classes this run has marked, in the order it marked them.
   */
  datatype Marking = Marking(marks: seq<Option<string>>, marked: seq<nat>)

  /** Every marked index is the index of a class. */
  predicate InRange(m: Marking, n: nat) {
    forall k :: 0 <= k < |m.marked| ==> m.marked[k] < n
  }

  /** `handle_reference_type`: find the target; mark it with this name unless it is marked already. */
  function Handle(names: seq<Option<string>>, m: Marking, ref: string): (r: Result<Marking, Error>)
    requires |m.marks| == |names|
    ensures r.Success? ==> |r.value.marks| == |names|
    ensures r.Success? && InRange(m, |names|) ==> InRange(r.value, |names|)
  {
    match Target(names, ref)
    case None => Failure(UnresolvedReference(ref))
    case Some(i) =>
      if m.marks[i].Some? then Success(m)
      else Success(Marking(m.marks[i := Some(ref)], m.marked + [i]))
  }

  /** The references handled in turn, stopping at the first that does not resolve. */
  function Resolve(names: seq<Option<string>>, m: Marking, refs: seq<string>): (r: Result<Marking, Error>)
    requires |m.marks| == |names|
    ensures r.Success? ==> |r.value.marks| == |names|
    ensures r.Success? && InRange(m, |names|) ==> InRange(r.value, |names|)
    decreases |refs|
  {
    if refs == [] then Success(m)
    else
      var h := Handle(names, m, refs[0]);
      if h.Failure? then Failure(h.error) else Resolve(names, h.value, refs[1..])
  }

  /** Resolution succeeds exactly when every reference names a class, and otherwise fails on the first that does not. */
  lemma {:induction false} ResolveFails(names: seq<Option<string>>, m: Marking, refs: seq<string>)
    requires |m.marks| == |names|
    ensures Resolve(names, m, refs).Success? <==> forall p :: 0 <= p < |refs| ==> Target(names, refs[p]).Some?
    ensures Resolve(names, m, refs).Failure? ==>
      exists p :: 0 <= p < |refs| && Target(names, refs[p]).None?
        && Resolve(names, m, refs).error == UnresolvedReference(refs[p])
        && forall q :: 0 <= q < p ==> Target(names, refs[q]).Some?
    decreases |refs|
  {
    if refs != [] {
      var h := Handle(names, m, refs[0]);
      if h.Success? {
        ResolveFails(names, h.value, refs[1..]);
        assert forall p :: 1 <= p < |refs| ==> refs[p] == refs[1..][p - 1];
        if Resolve(names, m, refs).Failure? {
          var p :| 0 <= p < |refs[1..]| && Target(names, refs[1..][p]).None?
            && Resolve(names, h.value, refs[1..]).error == UnresolvedReference(refs[1..][p])
            && forall q :: 0 <= q < p ==> Target(names, refs[1..][q]).Some?;
          assert Target(names, refs[p + 1]).None?;
          forall q | 0 <= q < p + 1 ensures Target(names, refs[q]).Some? {
            if q > 0 { assert refs[q] == refs[1..][q - 1]; }
          }
        }
      } else {
        assert Target(names, refs[0]).None?;
      }
    }
  }

  /** A class once marked keeps its reference name: a mark is never overwritten. */
  lemma {:induction false} ResolveKeepsMarks(names: seq<Option<string>>, m: Marking, refs: seq<string>)
    requires |m.marks| == |names| && Resolve(names, m, refs).Success?
    ensures forall i :: 0 <= i < |names| && m.marks[i].Some? ==> Resolve(names, m, refs).value.marks[i] == m.marks[i]
    ensures m.marked <= Resolve(names, m, refs).value.marked
    decreases |refs|
  {
    if refs != [] {
      ResolveKeepsMarks(names, Handle(names, m, refs[0]).value, refs[1..]);
    }
  }

  /** After a successful run, the target of every reference is marked. */
  lemma {:induction false} ResolveMarksTargets(names: seq<Option<string>>, m: Marking, refs: seq<string>)
    requires |m.marks| == |names| && Resolve(names, m, refs).Success?
    ensures forall p :: 0 <= p < |refs| ==>
      Target(names, refs[p]).Some? && Resolve(names, m, refs).value.marks[Target(names, refs[p]).value].Some?
    decreases |refs|
  {
    if refs != [] {
      var h := Handle(names, m, refs[0]).value;
      ResolveMarksTargets(names, h, refs[1..]);
      ResolveKeepsMarks(names, h, refs[1..]);
      forall p | 1 <= p < |refs|
        ensures Target(names, refs[p]).Some? && Resolve(names, m, refs).value.marks[Target(names, refs[p]).value].Some?
      {
        assert refs[p] == refs[1..][p - 1];
      }
    }
  }

  /** The name a class is first referenced by, among the references in order. */
  function FirstReferrer(names: seq<Option<string>>, refs: seq<string>, i: nat): Option<string> {
    if refs == [] then None
    else if Target(names, refs[0]) == Some(i) then Some(refs[0])
    else FirstReferrer(names, refs[1..], i)
  }

  /**
   * A class that was not marked before the run ends up marked exactly when
   * some reference resolves to it, with the un-normalised name of the first
   * such reference.
   */
  lemma {:induction false} ResolveFirstReferrer(names: seq<Option<string>>, m: Marking, refs: seq<string>, i: nat)
    requires |m.marks| == |names| && i < |names| && m.marks[i].None?
    requires Resolve(names, m, refs).Success?
    ensures Resolve(names, m, refs).value.marks[i] == FirstReferrer(names, refs, i)
    decreases |refs|
  {
    if refs != [] {
      var h := Handle(names, m, refs[0]).value;
      if Target(names, refs[0]) == Some(i) {
        assert h.marks[i] == Some(refs[0]);
        ResolveKeepsMarks(names, h, refs[1..]);
      } else {
        assert h.marks[i].None?;
        ResolveFirstReferrer(names, h, refs[1..], i);
      }
    }
  }

  /** The marks so far agree with a starting point: old marks kept, and the newly marked classes listed once each. */
  predicate Tracks(m0: Marking, m: Marking) {
    && |m.marks| == |m0.marks|
    && (forall i :: 0 <= i < |m0.marks| && m0.marks[i].Some? ==> m.marks[i] == m0.marks[i])
    && (forall k :: 0 <= k < |m.marked| ==> m.marked[k] < |m.marks|)
    && (forall i :: 0 <= i < |m0.marks| ==> (m0.marks[i].None? && m.marks[i].Some? <==> i in m.marked))
    && (forall k, l :: 0 <= k < l < |m.marked| ==> m.marked[k] != m.marked[l])
  }

  /**
   * The classes a run marks are exactly those it turned from unmarked to
   * marked, each listed once, and no earlier mark changes.
   */
  lemma {:induction false} ResolveTracks(names: seq<Option<string>>, m0: Marking, m: Marking, refs: seq<string>)
    requires |m.marks| == |names| && Tracks(m0, m)
    requires Resolve(names, m, refs).Success?
    ensures Tracks(m0, Resolve(names, m, refs).value)
    decreases |refs|
  {
    if refs != [] {
      var h := Handle(names, m, refs[0]).value;
      var i := Target(names, refs[0]).value;
      if m.marks[i].None? {
        assert i !in m.marked;
        assert h.marked == m.marked + [i];
        forall j | 0 <= j < |m0.marks|
          ensures (m0.marks[j].None? && h.marks[j].Some? <==> j in h.marked)
        {
          if j == i {
            assert j in h.marked;
          } else {
            assert h.marks[j] == m.marks[j];
            assert j in h.marked <==> j in m.marked;
          }
        }
        assert Tracks(m0, h);
      }
      ResolveTracks(names, m0, h, refs[1..]);
    }
  }

  /** A second run over the same references marks nothing new. */
  lemma ResolveIdempotent(names: seq<Option<string>>, m: Marking, refs: seq<string>, marked: seq<nat>)
    requires |m.marks| == |names| && Resolve(names, m, refs).Success?
    ensures var m' := Marking(Resolve(names, m, refs).value.marks, marked);
      Resolve(names, m', refs) == Success(m')
  {
    ResolveMarksTargets(names, m, refs);
    ResolveAllMarked(names, Marking(Resolve(names, m, refs).value.marks, marked), refs);
  }

  lemma {:induction false} ResolveAllMarked(names: seq<Option<string>>, m: Marking, refs: seq<string>)
    requires |m.marks| == |names|
    requires forall p :: 0 <= p < |refs| ==> Target(names, refs[p]).Some? && m.marks[Target(names, refs[p]).value].Some?
    ensures Resolve(names, m, refs) == Success(m)
    decreases |refs|
  {
    if refs != [] {
      assert Handle(names, m, refs[0]) == Success(m);
      forall p | 0 <= p < |refs[1..]|
        ensures Target(names, refs[1..][p]).Some? && m.marks[Target(names, refs[1..][p]).value].Some?
      {
        assert refs[1..][p] == refs[p + 1];
      }
      ResolveAllMarked(names, m, refs[1..]);
    }
  }

  /** Resolving one list after another is resolving them joined. */
  lemma {:induction false} ResolveAppend(names: seq<Option<string>>, m: Marking, a: seq<string>, b: seq<string>)
    requires |m.marks| == |names|
    ensures Resolve(names, m, a + b) ==
      (var r := Resolve(names, m, a); if r.Failure? then r else Resolve(names, r.value, b))
    decreases |a|
  {
    if a == [] {
      assert a + b == b;
    } else {
      assert (a + b)[0] == a[0] && (a + b)[1..] == a[1..] + b;
      var h := Handle(names, m, a[0]);
      if h.Success? {
        ResolveAppend(names, h.value, a[1..], b);
      }
    }
  }

  /** One field's step of the scan: skip it when it refers to nothing, otherwise handle its reference. */
  lemma ResolveVarStep(names: seq<Option<string>>, ms: seq<Option<string>>, marked: seq<nat>, vars: seq<Var>, j: nat)
    requires |ms| == |names| && j < |vars|
    ensures vars[j].references.None? ==>
      Resolve(names, Marking(ms, marked), VarReferences(vars[j..])) == Resolve(names, Marking(ms, marked), VarReferences(vars[j + 1..]))
    ensures vars[j].references.Some? ==>
      var h := Handle(names, Marking(ms, []), vars[j].references.value);
      Resolve(names, Marking(ms, marked), VarReferences(vars[j..])) ==
        if h.Failure? then Failure(h.error) else Resolve(names, Marking(h.value.marks, marked + h.value.marked), VarReferences(vars[j + 1..]))
  {
    assert vars[j..][0] == vars[j] && vars[j..][1..] == vars[j + 1..];
    if vars[j].references.Some? {
      ResolveStep(names, ms, marked, vars[j].references.value, VarReferences(vars[j + 1..]));
    } else {
      assert VarReferences(vars[j..]) == VarReferences(vars[j + 1..]);
    }
  }

  /** One class's step of the scan: its references, then the later classes'. */
  lemma ResolveClassStep(names: seq<Option<string>>, ms: seq<Option<string>>, marked: seq<nat>, sts: seq<ClassState>, i: nat)
    requires |ms| == |names| && i < |sts|
    ensures var r := Resolve(names, Marking(ms, []), ClassReferences(sts[i]));
      Resolve(names, Marking(ms, marked), ReferenceNames(sts[i..])) ==
        if r.Failure? then r else Resolve(names, Marking(r.value.marks, marked + r.value.marked), ReferenceNames(sts[i + 1..]))
  {
    ReferenceNamesSplit(sts, i);
    ResolveAppend(names, Marking(ms, marked), ClassReferences(sts[i]), ReferenceNames(sts[i + 1..]));
    ResolveShift(names, ms, marked, [], ClassReferences(sts[i]));
    assert marked + [] == marked;
  }

  /** Indices marked before a run stay listed in front of the ones it marks, and change nothing else. */
  lemma {:induction false} ResolveShift(names: seq<Option<string>>, ms: seq<Option<string>>, a: seq<nat>, b: seq<nat>, refs: seq<string>)
    requires |ms| == |names|
    ensures var r := Resolve(names, Marking(ms, b), refs);
      Resolve(names, Marking(ms, a + b), refs) ==
        if r.Failure? then r else Success(Marking(r.value.marks, a + r.value.marked))
    decreases |refs|
  {
    if refs != [] {
      match Target(names, refs[0]) {
        case None =>
        case Some(i) =>
          if ms[i].Some? {
            ResolveShift(names, ms, a, b, refs[1..]);
          } else {
            assert (a + b) + [i] == a + (b + [i]);
            ResolveShift(names, ms[i := Some(refs[0])], a, b + [i], refs[1..]);
          }
      }
    }
  }

  /** One reference and then the rest: the indices the rest marks are listed after the first one's. */
  lemma ResolveFirstThenRest(names: seq<Option<string>>, ms: seq<Option<string>>, ref: string, refs: seq<string>)
    requires |ms| == |names|
    ensures var h := Handle(names, Marking(ms, []), ref);
      && (h.Failure? ==> Resolve(names, Marking(ms, []), [ref] + refs) == Failure(h.error))
      && (h.Success? ==>
            var rest := Resolve(names, Marking(h.value.marks, []), refs);
            Resolve(names, Marking(ms, []), [ref] + refs) ==
              if rest.Failure? then rest else Success(Marking(rest.value.marks, h.value.marked + rest.value.marked)))
  {
    ResolveStep(names, ms, [], ref, refs);
    var h := Handle(names, Marking(ms, []), ref);
    if h.Success? {
      assert [] + h.value.marked == h.value.marked + [];
      ResolveShift(names, h.value.marks, h.value.marked, [], refs);
    }
  }

  /** Handling one reference on top of earlier marks: the same lookup, its new mark listed after theirs. */
  lemma ResolveStep(names: seq<Option<string>>, ms: seq<Option<string>>, acc: seq<nat>, ref: string, rest: seq<string>)
    requires |ms| == |names|
    ensures var h := Handle(names, Marking(ms, []), ref);
      Resolve(names, Marking(ms, acc), [ref] + rest) ==
        if h.Failure? then Failure(h.error) else Resolve(names, Marking(h.value.marks, acc + h.value.marked), rest)
  {
    var refs := [ref] + rest;
    assert refs != [] && refs[0] == ref && refs[1..] == rest;
    var h1 := Handle(names, Marking(ms, acc), ref);
    var h := Handle(names, Marking(ms, []), ref);
    assert Resolve(names, Marking(ms, acc), refs) == if h1.Failure? then Failure(h1.error) else Resolve(names, h1.value, rest);
    match Target(names, ref) {
      case None =>
      case Some(i) =>
        if ms[i].Some? {
          assert h1.value == Marking(h.value.marks, acc + h.value.marked);
        } else {
          assert h.value.marked == [i];
          assert h1.value == Marking(h.value.marks, acc + h.value.marked);
        }
    }
  }

  // ---------------------------------------------------------------------
  // The marks a failed scan leaves behind
  // ---------------------------------------------------------------------

  /**
   * The marking reached by handling the references in turn until one does
   * not resolve: Ruby raises there, and the marks made before it stay.
   */
  function Reached(names: seq<Option<string>>, m: Marking, refs: seq<string>): (r: Marking)
    requires |m.marks| == |names|
    ensures |r.marks| == |names|
    ensures InRange(m, |names|) ==> InRange(r, |names|)
    decreases |refs|
  {
    if refs == [] then m
    else
      var h := Handle(names, m, refs[0]);
      if h.Failure? then m else Reached(names, h.value, refs[1..])
  }

  /** When every reference resolves, the marking reached is the resolved one. */
  lemma {:induction false} ReachedOfResolved(names: seq<Option<string>>, m: Marking, refs: seq<string>)
    requires |m.marks| == |names| && Resolve(names, m, refs).Success?
    ensures Reached(names, m, refs) == Resolve(names, m, refs).value
    decreases |refs|
  {
    if refs != [] {
      ReachedOfResolved(names, Handle(names, m, refs[0]).value, refs[1..]);
    }
  }

  /**
   * When reference `p` is the first that does not resolve, the marking
   * reached is that of resolving the references before it.
   */
  lemma {:induction false} ReachedBeforeFailure(names: seq<Option<string>>, m: Marking, refs: seq<string>, p: nat)
    requires |m.marks| == |names|
    requires p < |refs| && Target(names, refs[p]).None?
    requires forall q :: 0 <= q < p ==> Target(names, refs[q]).Some?
    ensures Resolve(names, m, refs[..p]) == Success(Reached(names, m, refs))
    decreases p
  {
    if p > 0 {
      var h := Handle(names, m, refs[0]).value;
      forall q | 0 <= q < p - 1 ensures Target(names, refs[1..][q]).Some? {
        assert refs[1..][q] == refs[q + 1];
      }
      assert refs[1..][p - 1] == refs[p];
      ReachedBeforeFailure(names, h, refs[1..], p - 1);
      var pre := refs[..p];
      assert pre[0] == refs[0] && pre[1..] == refs[1..][..p - 1];
    }
  }

  /** Handling one reference on top of earlier marks, as `ResolveStep` for the marking reached. */
  lemma ReachedStep(names: seq<Option<string>>, ms: seq<Option<string>>, acc: seq<nat>, ref: string, rest: seq<string>)
    requires |ms| == |names|
    ensures var h := Handle(names, Marking(ms, []), ref);
      Reached(names, Marking(ms, acc), [ref] + rest) ==
        if h.Failure? then Marking(ms, acc) else Reached(names, Marking(h.value.marks, acc + h.value.marked), rest)
  {
    var refs := [ref] + rest;
    assert refs != [] && refs[0] == ref && refs[1..] == rest;
    var h := Handle(names, Marking(ms, []), ref);
    match Target(names, ref) {
      case None =>
      case Some(i) =>
        if ms[i].Some? {
          assert Handle(names, Marking(ms, acc), ref).value == Marking(h.value.marks, acc + h.value.marked);
        } else {
          assert h.value.marked == [i];
          assert Handle(names, Marking(ms, acc), ref).value == Marking(h.value.marks, acc + h.value.marked);
        }
    }
  }

  /** Indices marked before stay listed in front of the ones reached after them. */
  lemma {:induction false} ReachedShift(names: seq<Option<string>>, ms: seq<Option<string>>, a: seq<nat>, b: seq<nat>, refs: seq<string>)
    requires |ms| == |names|
    ensures var r := Reached(names, Marking(ms, b), refs);
      Reached(names, Marking(ms, a + b), refs) == Marking(r.marks, a + r.marked)
    decreases |refs|
  {
    if refs != [] {
      match Target(names, refs[0]) {
        case None =>
        case Some(i) =>
          if ms[i].Some? {
            ReachedShift(names, ms, a, b, refs[1..]);
          } else {
            assert (a + b) + [i] == a + (b + [i]);
            ReachedShift(names, ms[i := Some(refs[0])], a, b + [i], refs[1..]);
          }
      }
    }
  }

  /** Over two lists of references, the first is handled, and the second only when the first resolved. */
  lemma {:induction false} ReachedAppend(names: seq<Option<string>>, m: Marking, a: seq<string>, b: seq<string>)
    requires |m.marks| == |names|
    ensures Reached(names, m, a + b) ==
      (var r := Resolve(names, m, a); if r.Failure? then Reached(names, m, a) else Reached(names, r.value, b))
    decreases |a|
  {
    if a == [] {
      assert a + b == b;
    } else {
      assert (a + b)[0] == a[0] && (a + b)[1..] == a[1..] + b;
      var h := Handle(names, m, a[0]);
      if h.Success? {
        ReachedAppend(names, h.value, a[1..], b);
      }
    }
  }

  /** One reference and then the rest, as `ResolveFirstThenRest` for the marking reached. */
  lemma ReachedFirstThenRest(names: seq<Option<string>>, ms: seq<Option<string>>, ref: string, refs: seq<string>)
    requires |ms| == |names|
    ensures var h := Handle(names, Marking(ms, []), ref);
      && (h.Failure? ==> Reached(names, Marking(ms, []), [ref] + refs) == Marking(ms, []))
      && (h.Success? ==>
            var rest := Reached(names, Marking(h.value.marks, []), refs);
            Reached(names, Marking(ms, []), [ref] + refs) == Marking(rest.marks, h.value.marked + rest.marked))
  {
    ReachedStep(names, ms, [], ref, refs);
    var h := Handle(names, Marking(ms, []), ref);
    if h.Success? {
      assert [] + h.value.marked == h.value.marked + [];
      ReachedShift(names, h.value.marks, h.value.marked, [], refs);
    }
  }

  /** One field's step of the scan, as `ResolveVarStep` for the marking reached. */
  lemma ReachedVarStep(names: seq<Option<string>>, ms: seq<Option<string>>, marked: seq<nat>, vars: seq<Var>, j: nat)
    requires |ms| == |names| && j < |vars|
    ensures vars[j].references.None? ==>
      Reached(names, Marking(ms, marked), VarReferences(vars[j..])) == Reached(names, Marking(ms, marked), VarReferences(vars[j + 1..]))
    ensures vars[j].references.Some? ==>
      var h := Handle(names, Marking(ms, []), vars[j].references.value);
      Reached(names, Marking(ms, marked), VarReferences(vars[j..])) ==
        if h.Failure? then Marking(ms, marked) else Reached(names, Marking(h.value.marks, marked + h.value.marked), VarReferences(vars[j + 1..]))
  {
    assert vars[j..][0] == vars[j] && vars[j..][1..] == vars[j + 1..];
    if vars[j].references.Some? {
      ReachedStep(names, ms, marked, vars[j].references.value, VarReferences(vars[j + 1..]));
    } else {
      assert VarReferences(vars[j..]) == VarReferences(vars[j + 1..]);
    }
  }

  /** One class's step of the scan, as `ResolveClassStep` for the marking reached. */
  lemma ReachedClassStep(names: seq<Option<string>>, ms: seq<Option<string>>, marked: seq<nat>, sts: seq<ClassState>, i: nat)
    requires |ms| == |names| && i < |sts|
    ensures var r := Resolve(names, Marking(ms, []), ClassReferences(sts[i]));
      var g := Reached(names, Marking(ms, []), ClassReferences(sts[i]));
      Reached(names, Marking(ms, marked), ReferenceNames(sts[i..])) ==
        if r.Failure? then Marking(g.marks, marked + g.marked)
        else Reached(names, Marking(r.value.marks, marked + r.value.marked), ReferenceNames(sts[i + 1..]))
  {
    ReferenceNamesSplit(sts, i);
    ReachedAppend(names, Marking(ms, marked), ClassReferences(sts[i]), ReferenceNames(sts[i + 1..]));
    ResolveShift(names, ms, marked, [], ClassReferences(sts[i]));
    ReachedShift(names, ms, marked, [], ClassReferences(sts[i]));
    assert marked + [] == marked;
  }

  /** The references from class `i` on: that class's own, then the later classes'. */
  lemma ReferenceNamesSplit(sts: seq<ClassState>, i: nat)
    requires i < |sts|
    ensures ReferenceNames(sts[i..]) == ClassReferences(sts[i]) + ReferenceNames(sts[i + 1..])
  {
    assert sts[i..][0] == sts[i] && sts[i..][1..] == sts[i + 1..];
  }

  // ---------------------------------------------------------------------
  // Building the classes
  // ---------------------------------------------------------------------

  /**
   * Ruby's `map` with a block that may raise: the results in order, or the
   * error of the first element whose block raises.
   */
  function MapResult<A, B, E>(f: A -> Result<B, E>, xs: seq<A>): (r: Result<seq<B>, E>)
    ensures r.Success? ==> |r.value| == |xs|
  {
    if xs == [] then Success([])
    else
      var y :- f(xs[0]);
      var rest :- MapResult(f, xs[1..]);
      Success([y] + rest)
  }

  /** When the map succeeds, each result is the block's value on the element at its position. */
  lemma {:induction false} MapResultEach<A, B, E>(f: A -> Result<B, E>, xs: seq<A>)
    requires MapResult(f, xs).Success?
    ensures var ys := MapResult(f, xs).value;
      forall k :: 0 <= k < |xs| ==> f(xs[k]) == Success(ys[k])
  {
    if xs != [] {
      MapResultEach(f, xs[1..]);
      assert forall k :: 1 <= k < |xs| ==> xs[k] == xs[1..][k - 1];
    }
  }

  /** When the block succeeds on every element, the map's results are exactly its values. */
  lemma {:induction false} MapResultAll<A, B, E>(f: A -> Result<B, E>, xs: seq<A>, ys: seq<B>)
    requires |ys| == |xs|
    requires forall k :: 0 <= k < |xs| ==> f(xs[k]) == Success(ys[k])
    ensures MapResult(f, xs) == Success(ys)
  {
    if xs != [] {
      assert forall k :: 0 <= k < |xs| - 1 ==> xs[1..][k] == xs[k + 1] && ys[1..][k] == ys[k + 1];
      MapResultAll(f, xs[1..], ys[1..]);
      ConsSplit(ys);
    }
  }

  /** The first element whose block fails decides the error. */
  lemma {:induction false} MapResultFirstFailure<A, B, E>(f: A -> Result<B, E>, xs: seq<A>, i: nat)
    requires i < |xs|
    requires forall k :: 0 <= k < i ==> f(xs[k]).Success?
    requires f(xs[i]).Failure?
    ensures MapResult(f, xs) == Failure(f(xs[i]).error)
    decreases i
  {
    if i > 0 {
      assert forall k :: 0 <= k < i - 1 ==> xs[1..][k] == xs[k + 1];
      assert xs[1..][i - 1] == xs[i];
      MapResultFirstFailure(f, xs[1..], i - 1);
    }
  }

  /** Mapping one more element extends the results of the ones before it. */
  lemma MapResultExtend<A, B, E>(f: A -> Result<B, E>, xs: seq<A>, i: nat, ys: seq<B>)
    requires i < |xs|
    requires MapResult(f, xs[..i]) == Success(ys)
    requires f(xs[i]).Success?
    ensures MapResult(f, xs[..i + 1]) == Success(ys + [f(xs[i]).value])
  {
    MapResultEach(f, xs[..i]);
    assert forall k :: 0 <= k < i ==> xs[..i + 1][k] == xs[..i][k];
    MapResultAll(f, xs[..i + 1], ys + [f(xs[i]).value]);
  }

  /** Once the elements before it map, an element whose block fails decides the error. */
  lemma MapResultStop<A, B, E>(f: A -> Result<B, E>, xs: seq<A>, i: nat)
    requires i < |xs|
    requires MapResult(f, xs[..i]).Success?
    requires f(xs[i]).Failure?
    ensures MapResult(f, xs) == Failure(f(xs[i]).error)
  {
    MapResultEach(f, xs[..i]);
    assert forall k :: 0 <= k < i ==> xs[..i][k] == xs[k];
    MapResultFirstFailure(f, xs, i);
  }

  /** `Class.from_element` for the elements of one package. */
  function ClassOf(packageName: string, version: Option<string>): Element -> Result<ClassState, Error> {
    e => ClassFromElement(e, packageName, version)
  }

  /** `populate_from_schema`: one class per element, in schema order, stopping at the first error. */
  function BuildClasses(es: seq<Element>, packageName: string, version: Option<string>): Result<seq<ClassState>, Error> {
    MapResult(ClassOf(packageName, version), es)
  }

  // ---------------------------------------------------------------------
  // The package, updated in place
  // ---------------------------------------------------------------------

  /** The names of the classes, in order. */
  function Names(sts: seq<ClassState>): (r: seq<Option<string>>)
    ensures |r| == |sts| && forall k :: 0 <= k < |sts| ==> r[k] == sts[k].name
  {
    if sts == [] then [] else [sts[0].name] + Names(sts[1..])
  }

  /** A class's state apart from whether and by what name it is referenced. */
  function Unmarked(st: ClassState): ClassState {
    st.(referenced := false, refName := None)
  }

  /** A class's state with the given reference name: referenced exactly when there is one. */
  function WithMark(st: ClassState, mark: Option<string>): ClassState {
    st.(referenced := mark.Some?, refName := mark)
  }

  /** The states of classes, each unmarked part with its mark. */
  function Join(shapes: seq<ClassState>, marks: seq<Option<string>>): (r: seq<ClassState>)
    requires |shapes| == |marks|
    ensures |r| == |shapes| && forall k :: 0 <= k < |shapes| ==> r[k] == WithMark(shapes[k], marks[k])
  {
    seq(|shapes|, k requires 0 <= k < |shapes| => WithMark(shapes[k], marks[k]))
  }

  /** The states of classes apart from their marks. */
  function Shapes(sts: seq<ClassState>): (r: seq<ClassState>)
    ensures |r| == |sts| && forall k :: 0 <= k < |sts| ==> r[k] == Unmarked(sts[k])
  {
    seq(|sts|, k requires 0 <= k < |sts| => Unmarked(sts[k]))
  }

  /** The reference name of each class. */
  function Marks(sts: seq<ClassState>): (r: seq<Option<string>>)
    ensures |r| == |sts| && forall k :: 0 <= k < |sts| ==> r[k] == sts[k].refName
  {
    seq(|sts|, k requires 0 <= k < |sts| => sts[k].refName)
  }

  /** Classes whose reference state is consistent are their shapes with their marks. */
  lemma JoinShapesMarks(sts: seq<ClassState>)
    requires forall k :: 0 <= k < |sts| ==> sts[k].referenced == sts[k].refName.Some?
    ensures Join(Shapes(sts), Marks(sts)) == sts
  {
    assert forall k :: 0 <= k < |sts| ==> Join(Shapes(sts), Marks(sts))[k] == sts[k];
  }

  /** The classes at the given indices. */
  function At(cs: seq<ClassDef>, idx: seq<nat>): (r: seq<ClassDef>)
    requires forall k :: 0 <= k < |idx| ==> idx[k] < |cs|
    ensures |r| == |idx| && forall k :: 0 <= k < |idx| ==> r[k] == cs[idx[k]]
  {
    seq(|idx|, k requires 0 <= k < |idx| => cs[idx[k]])
  }

  /** The classes at two runs of indices, one after the other. */
  lemma AtAppend(cs: seq<ClassDef>, p: seq<ClassDef>, a: seq<nat>, b: seq<nat>)
    requires forall k :: 0 <= k < |a| ==> a[k] < |cs|
    requires forall k :: 0 <= k < |b| ==> b[k] < |cs|
    ensures At(cs, a + b) == At(cs, a) + At(cs, b)
    ensures p + At(cs, a + b) == (p + At(cs, a)) + At(cs, b)
  {
    assert At(cs, a + b) == At(cs, a) + At(cs, b);
  }

  /** Distinct, valid class objects whose states are the given ones. */
  ghost predicate Holds(cs: seq<ClassDef>, sts: seq<ClassState>)
    reads cs
  {
    && |cs| == |sts|
    && (forall i, j :: 0 <= i < j < |cs| ==> cs[i] != cs[j])
    && (forall k :: 0 <= k < |cs| ==> cs[k].Valid() && cs[k].State() == sts[k])
  }

  /**
   * What scanning class `i` leaves, given the outcome of its own references:
   * the outcome, marks and referenced list of the whole remaining scan.
   */
  lemma ScanStepOutcome(names: seq<Option<string>>, ms: seq<Option<string>>, marked: seq<nat>, sts: seq<ClassState>, i: nat,
                        cs: seq<ClassDef>, before: seq<ClassDef>)
    requires |ms| == |names| == |cs| && i < |sts|
    requires InRange(Marking(ms, marked), |cs|)
    ensures var r := Resolve(names, Marking(ms, []), ClassReferences(sts[i]));
      var g := Reached(names, Marking(ms, []), ClassReferences(sts[i]));
      var reached := Reached(names, Marking(ms, marked), ReferenceNames(sts[i..]));
      && (r.Failure? ==>
            && Resolve(names, Marking(ms, marked), ReferenceNames(sts[i..])) == Failure(r.error)
            && reached.marks == g.marks
            && (before + At(cs, marked)) + At(cs, g.marked) == before + At(cs, reached.marked))
      && (r.Success? ==>
            && Resolve(names, Marking(ms, marked), ReferenceNames(sts[i..]))
               == Resolve(names, Marking(r.value.marks, marked + r.value.marked), ReferenceNames(sts[i + 1..]))
            && reached == Reached(names, Marking(r.value.marks, marked + r.value.marked), ReferenceNames(sts[i + 1..]))
            && InRange(Marking(r.value.marks, marked + r.value.marked), |cs|)
            && (before + At(cs, marked)) + At(cs, r.value.marked) == before + At(cs, marked + r.value.marked))
  {
    ResolveClassStep(names, ms, marked, sts, i);
    ReachedClassStep(names, ms, marked, sts, i);
    var r := Resolve(names, Marking(ms, []), ClassReferences(sts[i]));
    var g := Reached(names, Marking(ms, []), ClassReferences(sts[i]));
    if r.Failure? {
      AtAppend(cs, before, marked, g.marked);
    } else {
      AtAppend(cs, before, marked, r.value.marked);
    }
  }

  /** A new class, distinct from those before it, extends the correspondence. */
  lemma HoldsAppend(cs: seq<ClassDef>, sts: seq<ClassState>, c: ClassDef, st: ClassState)
    requires Holds(cs, sts) && c !in cs && c.Valid() && c.State() == st
    ensures Holds(cs + [c], sts + [st])
  {
    var cs', sts' := cs + [c], sts + [st];
    assert forall k :: 0 <= k < |cs| ==> cs'[k] == cs[k] && sts'[k] == sts[k];
  }

  class Package {
    var name: string
    var classes: seq<ClassDef>
    var referencedClasses: seq<ClassDef>
    var schemaVersion: Option<string>
    /** The state of each class apart from its mark; the scan never changes it. */
    ghost var shapes: seq<ClassState>
    /** The reference name of each class, Some exactly when the class is referenced. */
    ghost var marks: seq<Option<string>>

    /** The classes are distinct and valid, and their states are the shapes with the marks. */
    ghost predicate Valid()
      reads this, classes
    {
      && |shapes| == |marks|
      && Holds(classes, Join(shapes, marks))
    }

    constructor (name: string)
      ensures Valid()
      ensures this.name == name && classes == [] && referencedClasses == [] && schemaVersion.None?
    {
      this.name := name;
      classes := [];
      referencedClasses := [];
      schemaVersion := None;
      shapes, marks := [], [];
    }

    /**
     * `populate_from_schema`: the schema's version, then one class per
     * top-level element; on an error the classes are left as they were.
     */
    method PopulateFromSchema(schema: Schema) returns (res: Outcome<Error>)
      requires Valid()
      modifies this
      ensures Valid()
      ensures name == old(name) && referencedClasses == old(referencedClasses)
      ensures schemaVersion == schema.version
      ensures res == BuildClasses(schema.elements, name, schema.version).ToOutcome()
      ensures res.Pass? ==> Join(shapes, marks) == BuildClasses(schema.elements, name, schema.version).value
      ensures res.Fail? ==> classes == old(classes) && shapes == old(shapes) && marks == old(marks)
    {
      schemaVersion := schema.version;
      var built;
      ghost var sts;
      res, built, sts := ClassesFromElements(schema.elements, name, schema.version);
      if res.Pass? {
        Keep(built, sts);
      }
    }

    /** Keeps the classes built from a schema, split into their shapes and their marks. */
    method Keep(built: seq<ClassDef>, ghost sts: seq<ClassState>)
      requires Holds(built, sts)
      modifies this
      ensures Valid()
      ensures classes == built && Join(shapes, marks) == sts
      ensures name == old(name) && referencedClasses == old(referencedClasses) && schemaVersion == old(schemaVersion)
    {
      classes := built;
      shapes, marks := Shapes(sts), Marks(sts);
      JoinShapesMarks(sts);
    }

    /** The classes of the elements, one by one, stopping at the first that fails. */
    static method ClassesFromElements(es: seq<Element>, packageName: string, version: Option<string>)
      returns (res: Outcome<Error>, built: seq<ClassDef>, ghost sts: seq<ClassState>)
      ensures res == BuildClasses(es, packageName, version).ToOutcome()
      ensures res.Pass? ==> sts == BuildClasses(es, packageName, version).value
      ensures Holds(built, sts)
    {
      built, sts := [], [];
      var i := 0;
      while i < |es|
        invariant 0 <= i <= |es|
        invariant Holds(built, sts)
        invariant BuildClasses(es[..i], packageName, version) == Success(sts)
      {
        var r;
        ghost var sts0 := sts;
        r, built, sts := AppendClass(built, sts, es[i], packageName, version);
        if r.Fail? {
          MapResultStop(ClassOf(packageName, version), es, i);
          return r, built, sts;
        }
        MapResultExtend(ClassOf(packageName, version), es, i, sts0);
        i := i + 1;
      }
      assert es[..i] == es;
      res := Pass;
    }

    /** `Class.from_element` on one more element, its class kept after the ones built so far. */
    static method AppendClass(built: seq<ClassDef>, ghost sts: seq<ClassState>, e: Element, packageName: string, version: Option<string>)
      returns (res: Outcome<Error>, built': seq<ClassDef>, ghost sts': seq<ClassState>)
      requires Holds(built, sts)
      ensures res == ClassFromElement(e, packageName, version).ToOutcome()
      ensures res.Pass? ==> sts' == sts + [ClassFromElement(e, packageName, version).value]
      ensures res.Fail? ==> sts' == sts
      ensures Holds(built', sts')
    {
      var c;
      res, c := ClassDef.FromElement(e, packageName, version);
      if res.Fail? {
        return res, built, sts;
      }
      assert c !in built;
      HoldsAppend(built, sts, c, c.State());
      built' := built + [c];
      sts' := sts + [c.State()];
    }

    /** `handle_reference_type`: mark the class a reference resolves to, unless it is marked already. */
    method HandleReferenceType(ref: string) returns (res: Outcome<Error>, yielded: seq<ClassDef>)
      requires Valid()
      modifies this, classes
      ensures Valid()
      ensures name == old(name) && classes == old(classes) && schemaVersion == old(schemaVersion) && shapes == old(shapes)
      ensures var h := Handle(Names(shapes), Marking(old(marks), []), ref);
        && res == h.ToOutcome()
        && (res.Pass? ==> marks == h.value.marks && yielded == At(classes, h.value.marked))
      ensures res.Fail? ==> marks == old(marks) && yielded == []
      ensures referencedClasses == old(referencedClasses) + yielded
    {
      var t := FindClass(ref);
      if t.None? {
        return Fail(UnresolvedReference(ref)), [];
      }
      yielded := MarkClass(t.value, ref);
      res := Pass;
    }

    /** `@classes.find`: the first class whose name is the fixed reference name. */
    method FindClass(ref: string) returns (t: Option<nat>)
      requires Valid()
      ensures t == Target(Names(shapes), ref)
    {
      var fixed := FixName(ref);
      var i := 0;
      while i < |classes| && classes[i].name != Some(fixed)
        invariant 0 <= i <= |classes|
        invariant forall k :: 0 <= k < i ==> shapes[k].name != Some(fixed)
      {
        i := i + 1;
      }
      ghost var names := Names(shapes);
      if i < |classes| {
        assert names[i] == Some(fixed);
        ghost var f := FindFirst(names, Some(fixed));
        assert f.Some? && f.value <= i;
        t := Some(i);
      } else {
        t := None;
      }
    }

    /** `referenced!` on the class at `i` unless it is marked already; a newly marked class is yielded and listed. */
    method MarkClass(i: nat, ref: string) returns (yielded: seq<ClassDef>)
      requires Valid() && i < |classes|
      modifies this, classes[i]
      ensures Valid()
      ensures name == old(name) && classes == old(classes) && schemaVersion == old(schemaVersion) && shapes == old(shapes)
      ensures old(marks[i]).Some? ==> marks == old(marks) && yielded == []
      ensures old(marks[i]).None? ==> marks == old(marks)[i := Some(ref)] && yielded == [classes[i]]
      ensures referencedClasses == old(referencedClasses) + yielded
    {
      var target := classes[i];
      if target.referenced {
        return [];
      }
      yielded := [target];
      referencedClasses := referencedClasses + [target];
      target.MarkReferenced(ref);
      marks := marks[i := Some(ref)];
      assert Join(shapes, marks) == Join(shapes, old(marks))[i := target.State()];
    }

    /**
     * `scan_for_reference_types`: resolve, class by class, the cell type of
     * a class whose cells are ids and then every field's reference.  The
     * classes it marks are appended to the referenced classes in the order
     * they were marked.
     */
    method ScanForReferenceTypes() returns (res: Outcome<Error>)
      requires Valid()
      modifies this, classes
      ensures Valid()
      ensures name == old(name) && classes == old(classes) && schemaVersion == old(schemaVersion) && shapes == old(shapes)
      ensures var r := Resolve(Names(shapes), Marking(old(marks), []), ReferenceNames(shapes));
        && res == r.ToOutcome()
        && (res.Pass? ==> marks == r.value.marks && referencedClasses == old(referencedClasses) + At(classes, r.value.marked))
      ensures var g := Reached(Names(shapes), Marking(old(marks), []), ReferenceNames(shapes));
        marks == g.marks && referencedClasses == old(referencedClasses) + At(classes, g.marked)
    {
      ghost var sts := shapes;
      ghost var names := Names(sts);
      ghost var m0 := Marking(marks, []);
      ghost var goal := Resolve(names, m0, ReferenceNames(sts));
      ghost var reached := Reached(names, m0, ReferenceNames(sts));
      ghost var marked: seq<nat> := [];
      var i := 0;
      while i < |classes|
        invariant 0 <= i <= |classes|
        invariant Valid()
        invariant name == old(name) && classes == old(classes) && schemaVersion == old(schemaVersion) && shapes == old(shapes)
        invariant InRange(Marking(marks, marked), |classes|)
        invariant referencedClasses == old(referencedClasses) + At(classes, marked)
        invariant goal == Resolve(names, Marking(marks, marked), ReferenceNames(sts[i..]))
        invariant reached == Reached(names, Marking(marks, marked), ReferenceNames(sts[i..]))
      {
        var r;
        r, marked := ScanStep(i, sts, names, marked, old(referencedClasses), goal, reached);
        if r.Fail? {
          return r;
        }
        i := i + 1;
      }
      assert sts[|classes|..] == [];
      res := Pass;
    }

    /** One turn of the scan: the class at `i`, with the indices marked so far carried along. */
    method ScanStep(i: nat, ghost sts: seq<ClassState>, ghost names: seq<Option<string>>, ghost marked: seq<nat>,
                    ghost before: seq<ClassDef>, ghost goal: Result<Marking, Error>, ghost reached: Marking)
      returns (res: Outcome<Error>, ghost marked': seq<nat>)
      requires Valid() && i < |classes| && sts == shapes && names == Names(sts)
      requires InRange(Marking(marks, marked), |classes|)
      requires referencedClasses == before + At(classes, marked)
      requires goal == Resolve(names, Marking(marks, marked), ReferenceNames(sts[i..]))
      requires reached == Reached(names, Marking(marks, marked), ReferenceNames(sts[i..]))
      modifies this, classes
      ensures Valid()
      ensures name == old(name) && classes == old(classes) && schemaVersion == old(schemaVersion) && shapes == old(shapes)
      ensures res.Fail? ==> res == goal.ToOutcome()
      ensures res.Fail? ==> marks == reached.marks && referencedClasses == before + At(classes, reached.marked)
      ensures res.Pass? ==> reached == Reached(names, Marking(marks, marked'), ReferenceNames(sts[i + 1..]))
      ensures res.Pass? ==>
        && InRange(Marking(marks, marked'), |classes|)
        && referencedClasses == before + At(classes, marked')
        && goal == Resolve(names, Marking(marks, marked'), ReferenceNames(sts[i + 1..]))
    {
      marked' := marked;
      ScanStepOutcome(names, marks, marked, sts, i, classes, before);
      ghost var h := Resolve(names, Marking(marks, []), ClassReferences(sts[i]));
      res := ScanClass(i);
      if res.Pass? {
        marked' := marked + h.value.marked;
      }
    }

    /** The body of the scan for the class at `i`: its cell type when its cells are ids, then each field's reference. */
    method ScanClass(i: nat) returns (res: Outcome<Error>)
      requires Valid() && i < |classes|
      modifies this, classes
      ensures Valid()
      ensures name == old(name) && classes == old(classes) && schemaVersion == old(schemaVersion) && shapes == old(shapes)
      ensures var r := Resolve(Names(shapes), Marking(old(marks), []), ClassReferences(shapes[i]));
        && res == r.ToOutcome()
        && (res.Pass? ==> marks == r.value.marks && referencedClasses == old(referencedClasses) + At(classes, r.value.marked))
      ensures var g := Reached(Names(shapes), Marking(old(marks), []), ClassReferences(shapes[i]));
        marks == g.marks && referencedClasses == old(referencedClasses) + At(classes, g.marked)
    {
      var c := classes[i];
      var vars := c.vars;
      assert c.State() == WithMark(shapes[i], marks[i]);
      if !c.cellsAreIds {
        assert ClassReferences(shapes[i]) == [] + VarReferences(vars) == VarReferences(vars);
        res := ScanFields(vars);
        return;
      }
      ghost var names := Names(shapes);
      ghost var ms := marks;
      ghost var refClasses := referencedClasses;
      var ref := c.cellType.value;
      assert ClassReferences(shapes[i]) == [ref] + VarReferences(vars);
      ResolveFirstThenRest(names, ms, ref, VarReferences(vars));
      ReachedFirstThenRest(names, ms, ref, VarReferences(vars));
      ghost var h := Handle(names, Marking(ms, []), ref);
      var r, _ := HandleReferenceType(ref);
      if r.Fail? {
        return r;
      }
      res := ScanFields(vars);
      ghost var reached := Reached(names, Marking(h.value.marks, []), VarReferences(vars));
      AtAppend(classes, refClasses, h.value.marked, reached.marked);
      if res.Pass? {
        ghost var rest := Resolve(names, Marking(h.value.marks, []), VarReferences(vars));
        AtAppend(classes, refClasses, h.value.marked, rest.value.marked);
      }
    }

    /** The references of a class's fields, one after the other, stopping at the first that fails. */
    method ScanFields(vars: seq<Var>) returns (res: Outcome<Error>)
      requires Valid()
      modifies this, classes
      ensures Valid()
      ensures name == old(name) && classes == old(classes) && schemaVersion == old(schemaVersion) && shapes == old(shapes)
      ensures var r := Resolve(Names(shapes), Marking(old(marks), []), VarReferences(vars));
        && res == r.ToOutcome()
        && (res.Pass? ==> marks == r.value.marks && referencedClasses == old(referencedClasses) + At(classes, r.value.marked))
      ensures var g := Reached(Names(shapes), Marking(old(marks), []), VarReferences(vars));
        marks == g.marks && referencedClasses == old(referencedClasses) + At(classes, g.marked)
    {
      ghost var names := Names(shapes);
      ghost var m0 := Marking(marks, []);
      ghost var marked: seq<nat> := [];
      var j := 0;
      while j < |vars|
        invariant 0 <= j <= |vars|
        invariant Valid()
        invariant name == old(name) && classes == old(classes) && schemaVersion == old(schemaVersion) && shapes == old(shapes)
        invariant InRange(Marking(marks, marked), |classes|)
        invariant referencedClasses == old(referencedClasses) + At(classes, marked)
        invariant Resolve(names, m0, VarReferences(vars)) == Resolve(names, Marking(marks, marked), VarReferences(vars[j..]))
        invariant Reached(names, m0, VarReferences(vars)) == Reached(names, Marking(marks, marked), VarReferences(vars[j..]))
      {
        ResolveVarStep(names, marks, marked, vars, j);
        ReachedVarStep(names, marks, marked, vars, j);
        if vars[j].references.Some? {
          var ref := vars[j].references.value;
          ghost var h := Handle(names, Marking(marks, []), ref);
          var r, _ := HandleReferenceType(ref);
          if r.Fail? {
            return r;
          }
          AtAppend(classes, old(referencedClasses), marked, h.value.marked);
          marked := marked + h.value.marked;
        }
        j := j + 1;
      }
      assert vars[|vars|..] == [];
      assert vars[0..] == vars;
      res := Pass;
    }
  }
}
