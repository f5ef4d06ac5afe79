/**
  The record_when configuration of rpcz (config.go): a tree of AND, OR and NOT over tests
  of a span, one kind of which draws a random number, evaluated from left to right with
  short circuits.
 */
module RecordWhen {
  import opened Outcomes

  datatype Span = Span(attributes: map<string, string>, start: int, end: Option<int>)

  datatype Node =
    | And(kids: seq<Node>)
    | Or(kids: seq<Node>)
    | Not(kid: Node)
    | Test(holds: Span -> bool)
    | Sampling(fraction: real)

  /** The random numbers the process will draw, in order. */
  type Draws = nat -> real

  /** A decision, and the number of draws consumed when it is reached. */
  datatype Verdict = Verdict(record: bool, drawn: nat)

  function Eval(n: Node, s: Span, draws: Draws, at: nat): Verdict
    decreases n, 1
  {
    match n
    case And(kids) => if kids == [] then Verdict(false, at) else EvalAll(kids, s, draws, at)
    case Or(kids) => EvalAny(kids, s, draws, at)
    case Not(kid) => var v := Eval(kid, s, draws, at); v.(record := !v.record)
    case Test(holds) => Verdict(holds(s), at)
    case Sampling(fraction) => Verdict(fraction > draws(at), at + 1)
  }

  /** The loop of AND: up to the first false. */
  function EvalAll(kids: seq<Node>, s: Span, draws: Draws, at: nat): Verdict
    decreases kids, 0
  {
    if kids == [] then Verdict(true, at)
    else
      var v := Eval(kids[0], s, draws, at);
      if v.record then EvalAll(kids[1..], s, draws, v.drawn) else v
  }

  /** The loop of OR: up to the first true. */
  function EvalAny(kids: seq<Node>, s: Span, draws: Draws, at: nat): Verdict
    decreases kids, 0
  {
    if kids == [] then Verdict(false, at)
    else
      var v := Eval(kids[0], s, draws, at);
      if v.record then v else EvalAny(kids[1..], s, draws, v.drawn)
  }

  /** The process-wide random source. */
  class Rand {
    const draws: Draws
    var next: nat

    constructor (draws: Draws)
      ensures this.draws == draws && next == 0
    {
      this.draws := draws;
      next := 0;
    }

    method Float64() returns (x: real)
      modifies this
      ensures x == draws(old(next)) && next == old(next) + 1
    {
      x := draws(next);
      next := next + 1;
    }
  }

  /** The compiled predicates as they run, with their loops and the shared random source. */
  method ShouldRecord(n: Node, s: Span, rand: Rand) returns (record: bool)
    modifies rand
    ensures Verdict(record, rand.next) == Eval(n, s, rand.draws, old(rand.next))
    decreases n
  {
    match n
    case And(kids) =>
      if |kids| == 0 {
        return false;
      }
      for i := 0 to |kids|
        invariant EvalAll(kids[i..], s, rand.draws, rand.next) == EvalAll(kids, s, rand.draws, old(rand.next))
      {
        assert kids[i..][0] == kids[i] && kids[i..][1..] == kids[i + 1..];
        var ok := ShouldRecord(kids[i], s, rand);
        if !ok {
          return false;
        }
      }
      return true;
    case Or(kids) =>
      for i := 0 to |kids|
        invariant EvalAny(kids[i..], s, rand.draws, rand.next) == EvalAny(kids, s, rand.draws, old(rand.next))
      {
        assert kids[i..][0] == kids[i] && kids[i..][1..] == kids[i + 1..];
        var ok := ShouldRecord(kids[i], s, rand);
        if ok {
          return true;
        }
      }
      return false;
    case Not(kid) =>
      var ok := ShouldRecord(kid, s, rand);
      return !ok;
    case Test(holds) =>
      return holds(s);
    case Sampling(fraction) =>
      var x := rand.Float64();
      return fraction > x;
  }

  // ------------------------------------------------------------------ meaning

  /** Nothing in the tree draws a random number. */
  predicate DrawFree(n: Node)
    decreases n
  {
    match n
    case And(kids) => forall i | 0 <= i < |kids| :: DrawFree(kids[i])
    case Or(kids) => forall i | 0 <= i < |kids| :: DrawFree(kids[i])
    case Not(kid) => DrawFree(kid)
    case Test(_) => true
    case Sampling(_) => false
  }

  /** What a tree without sampling says of a span: all of a non-empty AND, some of an OR, not a NOT. */
  ghost predicate Holds(n: Node, s: Span)
    decreases n
  {
    match n
    case And(kids) => kids != [] && forall i | 0 <= i < |kids| :: Holds(kids[i], s)
    case Or(kids) => exists i | 0 <= i < |kids| :: Holds(kids[i], s)
    case Not(kid) => !Holds(kid, s)
    case Test(holds) => holds(s)
    case Sampling(_) => false
  }

  /** Without sampling the decision is the meaning of the tree, and no number is drawn. */
  lemma {:induction false} DrawFreeMeans(n: Node, s: Span, draws: Draws, at: nat)
    requires DrawFree(n)
    ensures Eval(n, s, draws, at) == Verdict(Holds(n, s), at)
    decreases n, 1
  {
    match n
    case And(kids) => EachMeans(kids, s, draws, at);
    case Or(kids) => EachMeans(kids, s, draws, at);
    case Not(kid) => DrawFreeMeans(kid, s, draws, at);
    case Test(_) =>
  }

  lemma {:induction false} EachMeans(kids: seq<Node>, s: Span, draws: Draws, at: nat)
    requires forall i | 0 <= i < |kids| :: DrawFree(kids[i])
    ensures EvalAll(kids, s, draws, at) == Verdict(forall i | 0 <= i < |kids| :: Holds(kids[i], s), at)
    ensures EvalAny(kids, s, draws, at) == Verdict(exists i | 0 <= i < |kids| :: Holds(kids[i], s), at)
    decreases kids, 0
  {
    if kids != [] {
      DrawFreeMeans(kids[0], s, draws, at);
      EachMeans(kids[1..], s, draws, at);
      assert forall i | 0 < i < |kids| :: kids[i] == kids[1..][i - 1];
      assert forall i | 0 <= i < |kids| - 1 :: kids[1..][i] == kids[i + 1];
    }
  }

  /**
    A sampling fraction is the share of draws that record: with draws from 0 up to 1, zero
    never does and one always does, a larger fraction does whenever a smaller one does, and
    each decision takes one draw.
   */
  lemma SamplingShare(f: real, g: real, s: Span, draws: Draws, at: nat)
    requires 0.0 <= draws(at) < 1.0
    ensures !Eval(Sampling(0.0), s, draws, at).record && Eval(Sampling(1.0), s, draws, at).record
    ensures f <= g && Eval(Sampling(f), s, draws, at).record ==> Eval(Sampling(g), s, draws, at).record
    ensures Eval(Sampling(f), s, draws, at).record <==> draws(at) < f
    ensures Eval(Sampling(f), s, draws, at).drawn == at + 1
  {
  }

  /** What decides ends it: behind a false part of an AND, or a true one of an OR, nothing is drawn any more. */
  lemma ShortCircuits(n: Node, rest: seq<Node>, s: Span, draws: Draws, at: nat)
    ensures var v := Eval(n, s, draws, at);
            && (!v.record ==> Eval(And([n] + rest), s, draws, at) == v)
            && (v.record ==> Eval(Or([n] + rest), s, draws, at) == v)
  {
    assert ([n] + rest)[0] == n;
  }

  // ------------------------------------------------------------------ flattening

  /** Nested non-empty ANDs merged into the AND around them, throughout the tree. */
  function Flatten(n: Node): Node
    decreases n, 1
  {
    match n
    case And(kids) => And(FlattenInto(kids))
    case Or(kids) => Or(FlattenEach(kids))
    case Not(kid) => Not(Flatten(kid))
    case Test(_) => n
    case Sampling(_) => n
  }

  /** What a flattened child contributes to the AND around it. */
  function Inlined(n: Node): seq<Node> {
    if n.And? && n.kids != [] then n.kids else [n]
  }

  function FlattenInto(kids: seq<Node>): seq<Node>
    decreases kids, 0
  {
    if kids == [] then [] else Inlined(Flatten(kids[0])) + FlattenInto(kids[1..])
  }

  function FlattenEach(kids: seq<Node>): seq<Node>
    decreases kids, 0
  {
    if kids == [] then [] else [Flatten(kids[0])] + FlattenEach(kids[1..])
  }

  lemma {:induction false} EvalAllConcat(a: seq<Node>, b: seq<Node>, s: Span, draws: Draws, at: nat)
    ensures EvalAll(a + b, s, draws, at) ==
      (var v := EvalAll(a, s, draws, at); if v.record then EvalAll(b, s, draws, v.drawn) else v)
    decreases |a|
  {
    if a == [] {
      assert a + b == b;
    } else {
      assert (a + b)[0] == a[0] && (a + b)[1..] == a[1..] + b;
      EvalAllConcat(a[1..], b, s, draws, Eval(a[0], s, draws, at).drawn);
    }
  }

  lemma EvalInlined(n: Node, s: Span, draws: Draws, at: nat)
    ensures EvalAll(Inlined(n), s, draws, at) == Eval(n, s, draws, at)
  {
    if !(n.And? && n.kids != []) {
      assert [n][1..] == [];
    }
  }

  /** Flattening changes neither the decision nor the number of draws, for any span and any draws. */
  lemma {:induction false} FlattenPreserves(n: Node, s: Span, draws: Draws, at: nat)
    ensures Eval(Flatten(n), s, draws, at) == Eval(n, s, draws, at)
    decreases n, 1
  {
    match n
    case And(kids) =>
      FlattenIntoPreserves(kids, s, draws, at);
    case Or(kids) => FlattenEachPreserves(kids, s, draws, at);
    case Not(kid) => FlattenPreserves(kid, s, draws, at);
    case Test(_) =>
    case Sampling(_) =>
  }

  lemma {:induction false} FlattenIntoPreserves(kids: seq<Node>, s: Span, draws: Draws, at: nat)
    ensures EvalAll(FlattenInto(kids), s, draws, at) == EvalAll(kids, s, draws, at)
    ensures FlattenInto(kids) == [] <==> kids == []
    decreases kids, 0
  {
    if kids != [] {
      var k := Flatten(kids[0]);
      FlattenPreserves(kids[0], s, draws, at);
      EvalInlined(k, s, draws, at);
      EvalAllConcat(Inlined(k), FlattenInto(kids[1..]), s, draws, at);
      FlattenIntoPreserves(kids[1..], s, draws, Eval(kids[0], s, draws, at).drawn);
    }
  }

  lemma {:induction false} FlattenEachPreserves(kids: seq<Node>, s: Span, draws: Draws, at: nat)
    ensures EvalAny(FlattenEach(kids), s, draws, at) == EvalAny(kids, s, draws, at)
    decreases kids, 0
  {
    if kids != [] {
      FlattenPreserves(kids[0], s, draws, at);
      var each := FlattenEach(kids);
      assert each[0] == Flatten(kids[0]) && each[1..] == FlattenEach(kids[1..]);
      FlattenEachPreserves(kids[1..], s, draws, Eval(kids[0], s, draws, at).drawn);
    }
  }

  // ------------------------------------------------------------------ pushing NOT inwards

  /** The tree, or its negation, with NOT moved through every non-empty AND and OR to the tests. */
  function Push(n: Node, negate: bool): Node
    decreases n, 1
  {
    match n
    case And(kids) =>
      if kids == [] then (if negate then Not(n) else n)
      else if negate then Or(PushEach(kids, true)) else And(PushEach(kids, false))
    case Or(kids) =>
      if kids == [] then (if negate then Not(n) else n)
      else if negate then And(PushEach(kids, true)) else Or(PushEach(kids, false))
    case Not(kid) => Push(kid, !negate)
    case Test(_) => if negate then Not(n) else n
    case Sampling(_) => if negate then Not(n) else n
  }

  function PushEach(kids: seq<Node>, negate: bool): (r: seq<Node>)
    ensures |r| == |kids|
    decreases kids, 0
  {
    if kids == [] then [] else [Push(kids[0], negate)] + PushEach(kids[1..], negate)
  }

  function Negated(v: Verdict, negate: bool): Verdict {
    v.(record := if negate then !v.record else v.record)
  }

  /** Pushing NOT inwards keeps the decision and the number of draws: the short circuits fall in the same place. */
  lemma {:induction false} PushPreserves(n: Node, negate: bool, s: Span, draws: Draws, at: nat)
    ensures Eval(Push(n, negate), s, draws, at) == Negated(Eval(n, s, draws, at), negate)
    decreases n, 1
  {
    match n
    case And(kids) => PushEachPreserves(kids, negate, s, draws, at);
    case Or(kids) => PushEachPreserves(kids, negate, s, draws, at);
    case Not(kid) => PushPreserves(kid, !negate, s, draws, at);
    case Test(_) =>
    case Sampling(_) =>
  }

  lemma {:induction false} PushEachPreserves(kids: seq<Node>, negate: bool, s: Span, draws: Draws, at: nat)
    ensures negate ==>
      && EvalAny(PushEach(kids, true), s, draws, at) == Negated(EvalAll(kids, s, draws, at), true)
      && EvalAll(PushEach(kids, true), s, draws, at) == Negated(EvalAny(kids, s, draws, at), true)
    ensures !negate ==>
      && EvalAll(PushEach(kids, false), s, draws, at) == EvalAll(kids, s, draws, at)
      && EvalAny(PushEach(kids, false), s, draws, at) == EvalAny(kids, s, draws, at)
    decreases kids, 0
  {
    if kids != [] {
      PushPreserves(kids[0], negate, s, draws, at);
      PushEachPreserves(kids[1..], negate, s, draws, Eval(kids[0], s, draws, at).drawn);
      var each := PushEach(kids, negate);
      assert each[0] == Push(kids[0], negate) && each[1..] == PushEach(kids[1..], negate);
    }
  }

  /** NOT stands only on tests and on empty ANDs and ORs after pushing. */
  predicate Pushed(n: Node)
    decreases n, 1
  {
    match n
    case And(kids) => PushedAll(kids)
    case Or(kids) => PushedAll(kids)
    case Not(kid) => kid.Test? || kid.Sampling? || ((kid.And? || kid.Or?) && kid.kids == [])
    case Test(_) => true
    case Sampling(_) => true
  }

  predicate PushedAll(kids: seq<Node>)
    decreases kids, 0
  {
    kids == [] || (Pushed(kids[0]) && PushedAll(kids[1..]))
  }

  lemma {:induction false} PushIsPushed(n: Node, negate: bool)
    ensures Pushed(Push(n, negate))
    decreases n, 1
  {
    match n
    case And(kids) => PushEachIsPushed(kids, negate);
    case Or(kids) => PushEachIsPushed(kids, negate);
    case Not(kid) => PushIsPushed(kid, !negate);
    case Test(_) =>
    case Sampling(_) =>
  }

  lemma {:induction false} PushEachIsPushed(kids: seq<Node>, negate: bool)
    ensures PushedAll(PushEach(kids, negate))
    decreases kids, 0
  {
    if kids != [] {
      PushIsPushed(kids[0], negate);
      PushEachIsPushed(kids[1..], negate);
      var each := PushEach(kids, negate);
      assert each[0] == Push(kids[0], negate) && each[1..] == PushEach(kids[1..], negate);
    }
  }

  /**
    Why the rewrites stop at empty nodes: an empty AND is false, so it is not the unit of
    AND, and its negation is not an empty OR.
   */
  lemma EmptyAndIsFalse(n: Node, s: Span, draws: Draws, at: nat)
    ensures Eval(And([]), s, draws, at) == Verdict(false, at)
    ensures Eval(Not(And([])), s, draws, at).record != Eval(Or([]), s, draws, at).record
    ensures !Eval(And([And([]), n]), s, draws, at).record
    ensures Eval(And([n]), s, draws, at) == Eval(n, s, draws, at)
  {
    var v := Eval(n, s, draws, at);
    assert [n][1..] == [] && EvalAll([n][1..], s, draws, v.drawn) == Verdict(true, v.drawn);
    assert EvalAll([n], s, draws, at) == v;
  }

  // ------------------------------------------------------------------ attribute tests

  predicate DelimiterAt(s: string, k: nat) {
    k + 2 <= |s| && s[k] == ',' && s[k + 1] == ' '
  }

  /** `strings.Index(s, ", ")` from a position: the first occurrence, or -1. */
  function IndexDelimiter(s: string, from: nat): (i: int)
    requires from <= |s|
    ensures i == -1 || (from <= i && DelimiterAt(s, i))
    ensures forall k: nat | from <= k && DelimiterAt(s, k) :: 0 <= i <= k
    decreases |s| - from
  {
    if from + 2 > |s| then -1
    else if DelimiterAt(s, from) then from
    else IndexDelimiter(s, from + 1)
  }

  /** parse: the key and value of "(key, value)". */
  function ParseAttribute(attribute: string): Option<(string, string)> {
    if |attribute| == 0 || attribute[0] != '(' then None
    else
      var a := attribute[1..];
      if |a| == 0 || a[|a| - 1] != ')' then None
      else
        var a := a[..|a| - 1];
        var i := IndexDelimiter(a, 0);
        if i == -1 then None else Some((a[..i], a[i + 2..]))
  }

  /** The first delimiter of "key, value" is the one in between, unless the key holds one. */
  lemma FirstDelimiter(key: string, value: string)
    ensures IndexDelimiter(key + ", " + value, 0) == |key| <==> IndexDelimiter(key, 0) == -1
    ensures 0 <= IndexDelimiter(key + ", " + value, 0) <= |key|
  {
    var a := key + ", " + value;
    assert forall k | 0 <= k < |key| :: a[k] == key[k];
    assert a[|key|] == ',' && a[|key| + 1] == ' ' && DelimiterAt(a, |key|);
    var i := IndexDelimiter(a, 0);
    if i < |key| {
      assert DelimiterAt(key, i);
    }
    var j := IndexDelimiter(key, 0);
    if j != -1 {
      assert DelimiterAt(a, j);
    }
  }

  /** An attribute parses exactly if it is a key and a value in parentheses with the delimiter between them. */
  lemma ParseIff(attribute: string)
    ensures ParseAttribute(attribute).Some? <==>
            exists key: string, value: string :: attribute == "(" + (key + ", " + value) + ")"
  {
    if ParseAttribute(attribute).Some? {
      var a := attribute[1..][..|attribute| - 2];
      var i := IndexDelimiter(a, 0);
      var key, value := a[..i], a[i + 2..];
      assert a == key + ", " + value;
      assert attribute == "(" + (key + ", " + value) + ")";
    }
    forall key: string, value: string | attribute == "(" + (key + ", " + value) + ")"
      ensures ParseAttribute(attribute).Some?
    {
      var a := key + ", " + value;
      assert attribute[1..] == a + ")" && (a + ")")[..|a|] == a;
      FirstDelimiter(key, value);
    }
  }

  /** A rendered attribute parses back to its key and value exactly when the key does not hold the delimiter. */
  lemma ParseRoundTrip(key: string, value: string)
    ensures ParseAttribute("(" + (key + ", " + value) + ")") == Some((key, value)) <==> IndexDelimiter(key, 0) == -1
  {
    var a := key + ", " + value;
    var attribute := "(" + a + ")";
    assert attribute[1..] == a + ")" && (a + ")")[..|a|] == a;
    FirstDelimiter(key, value);
    var i := IndexDelimiter(a, 0);
    assert a[..|key|] == key && a[|key| + 2..] == value;
    assert |a[..i]| == i;
  }
}
