/**
 What the parser keeps on every input, well formed or not: which containers it may write to, what it
 leaves on the stack, and when it can raise.
 */
module DirtyJsonDiscipline {
  import opened CodePoints
  import opened DirtyJsonSpec

  /** From `k` to `k'` no container was rewritten, and anything left on the stack was created on the way. */
  ghost predicate Grows(k: Store, k': Store) {
    && k'.Wf()
    && k.heap <= k'.heap
    && k.stack <= k'.stack
    && forall i :: |k.stack| <= i < |k'.stack| ==> k'.stack[i] >= |k.heap|
  }

  /** The container `o` is the innermost open one, above `base`. */
  ghost predicate Owns(k: Store, base: seq<nat>, o: nat, isDict: bool) {
    k.Wf() && k.stack == base + [o] && o < |k.heap| && k.heap[o].Dict? == isDict
  }

  /** From `k` to `k'` only `o` and newer containers were written; above `base` only these are on the stack. */
  ghost predicate Fills(k: Store, k': Store, base: seq<nat>, o: nat) {
    && k'.Wf()
    && o < |k.heap| <= |k'.heap|
    && k'.heap[o].Dict? == k.heap[o].Dict?
    && (forall id :: 0 <= id < |k.heap| && id != o ==> k'.heap[id] == k.heap[id])
    && base <= k'.stack
    && forall i :: |base| <= i < |k'.stack| ==> k'.stack[i] >= o
  }

  /** A failure is a malformed number, or the wrong kind of container at the end of the input. */
  ghost predicate FailsCleanly(r: Out)
    requires r.Raised?
  {
    r.error == ValueError || (r.rest == [] && (r.error == TypeError || r.error == AttributeError))
  }

  ghost predicate ContentKeeps(k: Store, base: seq<nat>, o: nat, r: Out) {
    match r
    case Raised(_, _) => FailsCleanly(r)
    case Done(_, rest, k') => Fills(k, k', base, o) && (rest != [] ==> k'.stack == base)
  }

  ghost predicate StepKeeps(k: Store, base: seq<nat>, o: nat, r: Step) {
    match r
    case Leave(out) => ContentKeeps(k, base, o, out)
    case Again(_, k') => Fills(k, k', base, o) && k'.stack == base + [o]
  }

  lemma FillsTrans(k: Store, k': Store, k'': Store, base: seq<nat>, o: nat)
    requires Fills(k, k', base, o) && Fills(k', k'', base, o)
    ensures Fills(k, k'', base, o)
  {
  }

  /** A whole value never rewrites a container that existed before it, and restores the stack unless
      the input ran out. */
  lemma {:induction false} ValueDiscipline(t: Text, k: Store)
    requires k.Wf()
    ensures match ParseValue(t, k)
      case Raised(_, _) => FailsCleanly(ParseValue(t, k))
      case Done(v, rest, k') =>
        && Grows(k, k')
        && (rest != [] ==> k'.stack == k.stack)
        && (v.PyRef? ==> |k.heap| <= v.id < |k'.heap|)
    decreases |t|, 0
  {
    var u := SkipTrivia(t);
    if u == [] {
    } else if u[0] == LBRACE {
      var inside := if |u| > 1 && u[1] == LBRACE then Drop(u, 3) else u[1..];
      ObjectDiscipline(inside, k.Push(Dict(map[])), k.stack, |k.heap|);
    } else if u[0] == LBRACKET {
      ArrayDiscipline(u[1..], k.Push(List([])), k.stack, |k.heap|);
    }
  }

  /** An object's content goes into the object that was on top when it began, and nowhere older. */
  lemma {:induction false} ObjectDiscipline(t: Text, k: Store, base: seq<nat>, o: nat)
    requires Owns(k, base, o, true)
    ensures ContentKeeps(k, base, o, ObjectContent(t, k))
    decreases |t|, 3
  {
    if t != [] {
      ObjectStepDiscipline(t, k, base, o);
      match ObjectStep(t, k)
      case Leave(_) =>
      case Again(rest, k') =>
        ObjectDiscipline(rest, k', base, o);
        var r := ObjectContent(rest, k');
        if r.Done? { FillsTrans(k, k', r.k, base, o); }
    }
  }

  lemma {:induction false} ObjectStepDiscipline(t: Text, k: Store, base: seq<nat>, o: nat)
    requires Owns(k, base, o, true) && t != []
    ensures StepKeeps(k, base, o, ObjectStep(t, k))
    decreases |t|, 2
  {
    hide Member;
    var u := SkipTrivia(t);
    if u != [] && u[0] != RBRACE {
      MemberDiscipline(u, k, base, o);
    }
  }

  lemma {:induction false} MemberDiscipline(t: Text, k: Store, base: seq<nat>, o: nat)
    requires Owns(k, base, o, true) && t != [] && !OpensTrivia(t)
    ensures match Member(t, k)
      case Raised(_, _) => FailsCleanly(Member(t, k))
      case Done(_, rest, k') =>
        Fills(k, k', base, o) && base + [o] <= k'.stack && (rest != [] ==> k'.stack == base + [o])
    decreases |t|, 1
  {
    hide ParseKey, ParseValue;
    var u := SkipTrivia(ParseKey(t).rest);
    if u != [] {
      ValueDiscipline(if u[0] == COLON then u[1..] else u, k);
    }
  }

  lemma {:induction false} ArrayDiscipline(t: Text, k: Store, base: seq<nat>, o: nat)
    requires Owns(k, base, o, false)
    ensures ContentKeeps(k, base, o, ArrayContent(t, k))
    decreases |t|, 3
  {
    if t != [] {
      ArrayStepDiscipline(t, k, base, o);
      match ArrayStep(t, k)
      case Leave(_) =>
      case Again(rest, k') =>
        ArrayDiscipline(rest, k', base, o);
        var r := ArrayContent(rest, k');
        if r.Done? { FillsTrans(k, k', r.k, base, o); }
    }
  }

  lemma {:induction false} ArrayStepDiscipline(t: Text, k: Store, base: seq<nat>, o: nat)
    requires Owns(k, base, o, false) && t != []
    ensures StepKeeps(k, base, o, ArrayStep(t, k))
    decreases |t|, 2
  {
    hide ParseValue;
    var u := SkipTrivia(t);
    if !StartsWithChar(u, RBRACKET) {
      ValueDiscipline(u, k);
      var value := ParseValue(u, k);
      if value.Done? {
        ElementDiscipline(value, k, base, o);
      }
    }
  }

  /** A value just read goes into the array, or into the container that it left open. */
  lemma ElementDiscipline(value: Out, k: Store, base: seq<nat>, o: nat)
    requires Owns(k, base, o, false) && value.Done? && Grows(k, value.k) && (value.rest != [] ==> value.k.stack == k.stack)
    ensures var stored := Append(value.v, value.rest, value.k);
      if stored.Raised? then FailsCleanly(stored)
      else stored.k.Wf() && StepKeeps(k, base, o, AfterElement(SkipTrivia(stored.rest), stored.k))
  {
    hide SkipTrivia;
    assert SkipTrivia([]) == [] by { NoTrivia(); }
  }

  lemma NoTrivia()
    ensures SkipTrivia([]) == []
  {
  }

  /** `parse` never pops or reads an empty stack, whatever the input; it fails only as `FailsCleanly`
      says; and it ends with an empty stack unless it used the input up. */
  lemma ParseDiscipline(s: Text)
    ensures match Parse(s)
      case Raised(e, _) => e != IndexError && FailsCleanly(Parse(s))
      case Done(v, rest, k) => k.Wf() && (rest != [] ==> k.stack == []) && (v.PyRef? ==> v.id < |k.heap|)
  {
    if s != [] {
      ValueDiscipline(s[StartPos(s)..], Store([], []));
    }
  }

  // ---------- No container inside itself ----------

  /** Every reference leads to a newer container, so no container is inside itself, at any depth. */
  ghost predicate Ordered(heap: seq<Container>) {
    forall id :: 0 <= id < |heap| ==> RefersAbove(heap[id], id)
  }

  ghost predicate RefersAbove(c: Container, id: nat) {
    match c
    case Dict(entries) => forall x :: x in entries && entries[x].PyRef? ==> entries[x].id > id
    case List(items) => forall i :: 0 <= i < |items| && items[i].PyRef? ==> items[i].id > id
  }

  /** A value that leaves the stack as it was left no container open: everything was stored where it belongs. */
  lemma {:induction false} ValueOrdered(t: Text, k: Store)
    requires k.Wf() && Ordered(k.heap)
    ensures var r := ParseValue(t, k); r.Done? && r.k.stack == k.stack ==> Ordered(r.k.heap)
    decreases |t|, 0
  {
    var u := SkipTrivia(t);
    if u == [] {
    } else if u[0] == LBRACE {
      var inside := if |u| > 1 && u[1] == LBRACE then Drop(u, 3) else u[1..];
      ObjectOrdered(inside, k.Push(Dict(map[])), k.stack, |k.heap|);
    } else if u[0] == LBRACKET {
      ArrayOrdered(u[1..], k.Push(List([])), k.stack, |k.heap|);
    }
  }

  lemma {:induction false} ObjectOrdered(t: Text, k: Store, base: seq<nat>, o: nat)
    requires Owns(k, base, o, true) && Ordered(k.heap)
    ensures var r := ObjectContent(t, k); r.Done? && r.k.stack == base ==> Ordered(r.k.heap)
    decreases |t|, 3
  {
    if t != [] {
      ObjectStepDiscipline(t, k, base, o);
      ObjectStepOrdered(t, k, base, o);
      match ObjectStep(t, k)
      case Leave(_) =>
      case Again(rest, k') =>
        ObjectOrdered(rest, k', base, o);
    }
  }

  lemma {:induction false} ObjectStepOrdered(t: Text, k: Store, base: seq<nat>, o: nat)
    requires Owns(k, base, o, true) && t != [] && Ordered(k.heap)
    ensures match ObjectStep(t, k)
      case Leave(out) => out.Done? && out.k.stack == base ==> Ordered(out.k.heap)
      case Again(_, k') => Ordered(k'.heap)
    decreases |t|, 2
  {
    hide Member, Ordered, SkipTrivia;
    var u := SkipTrivia(t);
    if u != [] && u[0] != RBRACE {
      MemberDiscipline(u, k, base, o);
      MemberOrdered(u, k, base, o);
      var stored := Member(u, k);
      if stored.Done? && stored.rest == [] { NoTrivia(); }
    }
  }

  lemma {:induction false} MemberOrdered(t: Text, k: Store, base: seq<nat>, o: nat)
    requires Owns(k, base, o, true) && t != [] && !OpensTrivia(t) && Ordered(k.heap)
    ensures var r := Member(t, k); r.Done? && r.k.stack == base + [o] ==> Ordered(r.k.heap)
    decreases |t|, 1
  {
    hide ParseKey, ParseValue;
    var u := SkipTrivia(ParseKey(t).rest);
    if u != [] {
      var z := if u[0] == COLON then u[1..] else u;
      ValueDiscipline(z, k);
      ValueOrdered(z, k);
    }
  }

  lemma {:induction false} ArrayOrdered(t: Text, k: Store, base: seq<nat>, o: nat)
    requires Owns(k, base, o, false) && Ordered(k.heap)
    ensures var r := ArrayContent(t, k); r.Done? && r.k.stack == base ==> Ordered(r.k.heap)
    decreases |t|, 3
  {
    if t != [] {
      ArrayStepDiscipline(t, k, base, o);
      ArrayStepOrdered(t, k, base, o);
      match ArrayStep(t, k)
      case Leave(_) =>
      case Again(rest, k') =>
        ArrayOrdered(rest, k', base, o);
    }
  }

  lemma {:induction false} ArrayStepOrdered(t: Text, k: Store, base: seq<nat>, o: nat)
    requires Owns(k, base, o, false) && t != [] && Ordered(k.heap)
    ensures match ArrayStep(t, k)
      case Leave(out) => out.Done? && out.k.stack == base ==> Ordered(out.k.heap)
      case Again(_, k') => Ordered(k'.heap)
    decreases |t|, 2
  {
    hide ParseValue, SkipTrivia;
    var u := SkipTrivia(t);
    if !StartsWithChar(u, RBRACKET) {
      ValueDiscipline(u, k);
      ValueOrdered(u, k);
      var value := ParseValue(u, k);
      if value.Done? {
        ElementOrdered(value, k, base, o);
      }
    }
  }

  lemma ElementOrdered(value: Out, k: Store, base: seq<nat>, o: nat)
    requires Owns(k, base, o, false) && value.Done? && Grows(k, value.k) && (value.rest != [] ==> value.k.stack == k.stack)
    requires value.v.PyRef? ==> |k.heap| <= value.v.id
    requires value.k.stack == k.stack ==> Ordered(value.k.heap)
    ensures var stored := Append(value.v, value.rest, value.k);
      stored.Done? ==> match AfterElement(SkipTrivia(stored.rest), stored.k)
        case Leave(out) => out.Done? && out.k.stack == base ==> Ordered(out.k.heap)
        case Again(_, k') => Ordered(k'.heap)
  {
    hide SkipTrivia;
    NoTrivia();
  }

  /** Whatever the text: if `parse` leaves its stack empty, no container is inside itself. */
  lemma ParseOrdered(s: Text)
    ensures var r := Parse(s); r.Done? && r.k.stack == [] ==> Ordered(r.k.heap)
  {
    if s != [] {
      ValueOrdered(s[StartPos(s)..], Store([], []));
    }
  }
}
