/**
  Filter chains (filter/filter.go): a backward loop that wraps handler closures around one
  another, each inside a tracing span when the context carries filter names.
 */
module FilterChain {
  import opened Outcomes

  /** What a handler is called with: context, request and, on a client, where the response goes. */
  type Request = int

  /** What a handler returns: a response and an error, nil included. */
  datatype Answer = Answer(rsp: int, err: int)

  /** What can be observed of a call: spans, the marks filters leave, and what handlers do. */
  datatype Event = Open(span: string) | Close(span: string) | Mark(id: int)

  /** The result of a call; `calls` counts how often the wrapped function has been reached in all. */
  datatype Outcome = Outcome(trace: seq<Event>, answer: Answer, calls: int)

  /** A handler: what it does may depend on the request and on how many calls came before. */
  type Handler = (Request, int) -> Outcome

  /** The next thing a filter does: leave marks, then call next with some request, or answer. */
  datatype Move = CallNext(marks: seq<int>, req: Request) | Return(marks: seq<int>, answer: Answer)

  /**
    A filter decides by the request it was called with and everything next has answered so
    far. Its rank falls with every call of next, whatever the answer: it always comes to
    answer, but there need be no bound on how often it calls next.
   */
  datatype Code = Code(move: (Request, seq<Answer>) -> Move, rank: (Request, seq<Answer>) -> ORDINAL)

  ghost predicate Ends(f: Code) {
    forall q, h, a :: f.move(q, h).CallNext? ==> f.rank(q, h + [a]) < f.rank(q, h)
  }

  type Filter = f: Code | Ends(f)
    ghost witness Code((q, h) => Return([], Answer(0, 0)), (q, h) => 0)

  /** Next once with the request as it came, marks around it, and its answer. */
  function Once(pre: seq<int>, post: seq<int>): Filter {
    Code((q, h) => if h == [] then CallNext(pre, q) else Return(post, h[0]),
         (q, h) => if h == [] then 1 else 0)
  }

  /** NoopServerFilter and NoopClientFilter */
  const Noop: Filter := Once([], [])

  function Marks(ids: seq<int>): seq<Event> {
    seq(|ids|, i requires 0 <= i < |ids| => Mark(ids[i]))
  }

  function Prefixed(trace: seq<Event>, o: Outcome): Outcome {
    o.(trace := trace + o.trace)
  }

  /** Running a filter around a handler, from some point on. */
  function Apply(f: Filter, req: Request, h: seq<Answer>, next: Handler, at: int): Outcome
    decreases f.rank(req, h)
  {
    match f.move(req, h)
    case CallNext(marks, q) =>
      var o := next(q, at);
      Prefixed(Marks(marks) + o.trace, Apply(f, req, h + [o.answer], next, o.calls))
    case Return(marks, answer) => Outcome(Marks(marks), answer, at)
  }

  function Spanned(name: string, o: Outcome): Outcome {
    o.(trace := [Open(name)] + o.trace + [Close(name)])
  }

  /** The innermost closure, around the wrapped function itself. */
  function Innermost(span: string, next: Handler): Handler {
    (q, n) => Spanned(span, next(q, n))
  }

  /** name */
  function NameOf(names: seq<string>, i: int): string {
    if i >= |names| || i < 0 then "unknown" else names[i]
  }

  /** The closure for one filter. */
  function Wrapped(f: Filter, i: int, names: Option<seq<string>>, next: Handler): Handler {
    (q, n) => if names.Some? then Spanned(NameOf(names.value, i), Apply(f, q, [], next, n)) else Apply(f, q, [], next, n)
  }

  /** The right fold of filters i, i+1, ... around a handler. */
  function Chain(c: seq<Filter>, i: nat, names: Option<seq<string>>, inner: Handler): Handler
    requires i <= |c|
    decreases |c| - i
  {
    if i == |c| then inner else Wrapped(c[i], i, names, Chain(c, i + 1, names, inner))
  }

  /** ClientChain.Filter, and with another span name ServerChain.Filter: the loop that builds the closures. */
  method RunFilter(c: seq<Filter>, names: Option<seq<string>>, span: string, next: Handler, req: Request, at: int)
    returns (o: Outcome)
    ensures o == Chain(c, 0, names, Innermost(span, next))(req, at)
  {
    var nextF := Innermost(span, next);
    for i := |c| downto 0
      invariant nextF == Chain(c, i, names, Innermost(span, next))
    {
      nextF := Wrapped(c[i], i, names, nextF);
    }
    o := nextF(req, at);
  }

  // ------------------------------------------------------------------ meaning without spans

  function EraseTrace(t: seq<Event>): seq<Event> {
    if t == [] then []
    else (if t[0].Mark? then [t[0]] else []) + EraseTrace(t[1..])
  }

  function Erase(o: Outcome): Outcome {
    o.(trace := EraseTrace(o.trace))
  }

  /** A chain as its documentation describes it: each filter around the rest, no spans. */
  function Plain(c: seq<Filter>, inner: Handler, req: Request, at: int): Outcome
    decreases |c|
  {
    if c == [] then inner(req, at) else Apply(c[0], req, [], PlainRest(c, inner), at)
  }

  function PlainRest(c: seq<Filter>, inner: Handler): Handler
    requires c != []
    decreases |c|, 0
  {
    (q, n) => Plain(c[1..], inner, q, n)
  }

  /** The plain chain as a handler. */
  function PlainHandler(c: seq<Filter>, inner: Handler): Handler {
    (q, n) => Plain(c, inner, q, n)
  }

  /** Handlers that differ in spans only. */
  ghost predicate Alike(g: Handler, h: Handler) {
    forall q, n :: Erase(g(q, n)) == Erase(h(q, n))
  }

  lemma {:induction false} EraseConcat(a: seq<Event>, b: seq<Event>)
    ensures EraseTrace(a + b) == EraseTrace(a) + EraseTrace(b)
  {
    if a == [] {
      assert a + b == b;
    } else {
      assert (a + b)[0] == a[0] && (a + b)[1..] == a[1..] + b;
      EraseConcat(a[1..], b);
    }
  }

  lemma EraseSpanned(name: string, o: Outcome)
    ensures Erase(Spanned(name, o)) == Erase(o)
  {
    EraseConcat([Open(name)] + o.trace, [Close(name)]);
    EraseConcat([Open(name)], o.trace);
    assert [Close(name)][1..] == [] && [Open(name)][1..] == [];
  }

  lemma ErasePrefixed(trace: seq<Event>, o: Outcome)
    ensures Erase(Prefixed(trace, o)) == Prefixed(EraseTrace(trace), Erase(o))
  {
    EraseConcat(trace, o.trace);
  }

  /** A filter cannot see spans: around handlers that agree without them, it agrees without them. */
  lemma {:induction false} ApplyErased(f: Filter, req: Request, h: seq<Answer>, g: Handler, g': Handler, at: int)
    requires Alike(g, g')
    ensures Erase(Apply(f, req, h, g, at)) == Erase(Apply(f, req, h, g', at))
    decreases f.rank(req, h)
  {
    match f.move(req, h)
    case CallNext(marks, q) =>
      var o, p := g(q, at), g'(q, at);
      assert Erase(o) == Erase(p);
      var h' := h + [o.answer];
      ApplyErased(f, req, h', g, g', o.calls);
      ErasePrefixed(Marks(marks) + o.trace, Apply(f, req, h', g, o.calls));
      ErasePrefixed(Marks(marks) + p.trace, Apply(f, req, h', g', o.calls));
      EraseConcat(Marks(marks), o.trace);
      EraseConcat(Marks(marks), p.trace);
    case Return(_, _) =>
  }

  /** Up to spans, the closures the loop builds mean the plain chain: names and span names do not matter. */
  lemma {:induction false} ChainIsPlain(c: seq<Filter>, i: nat, names: Option<seq<string>>, inner: Handler,
                                        req: Request, at: int)
    requires i <= |c|
    ensures Erase(Chain(c, i, names, inner)(req, at)) == Erase(Plain(c[i..], inner, req, at))
    decreases |c| - i
  {
    if i < |c| {
      var rest := Chain(c, i + 1, names, inner);
      var plain := PlainRest(c[i..], inner);
      assert c[i..][0] == c[i] && c[i..][1..] == c[i + 1..];
      forall q, n
        ensures Erase(rest(q, n)) == Erase(plain(q, n))
      {
        ChainIsPlain(c, i + 1, names, inner, q, n);
      }
      if names.Some? {
        EraseSpanned(NameOf(names.value, i), Apply(c[i], req, [], rest, at));
      }
      ApplyErased(c[i], req, [], rest, plain, at);
    }
  }

  lemma InnermostErased(span: string, next: Handler)
    ensures Alike(Innermost(span, next), next)
  {
    forall q, n
      ensures Erase(Innermost(span, next)(q, n)) == Erase(next(q, n))
    {
      EraseSpanned(span, next(q, n));
    }
  }

  /** Chains agree around handlers that agree, up to spans. */
  lemma {:induction false} PlainErased(c: seq<Filter>, g: Handler, h: Handler, req: Request, at: int)
    requires Alike(g, h)
    ensures Erase(Plain(c, g, req, at)) == Erase(Plain(c, h, req, at))
    decreases |c|
  {
    if c != [] {
      forall q, n
        ensures Erase(PlainRest(c, g)(q, n)) == Erase(PlainRest(c, h)(q, n))
      {
        PlainErased(c[1..], g, h, q, n);
      }
      ApplyErased(c[0], req, [], PlainRest(c, g), PlainRest(c, h), at);
    }
  }

  /** The outcome of Filter without its spans is that of the plain chain around the function. */
  lemma FilterMeansPlain(c: seq<Filter>, names: Option<seq<string>>, span: string, next: Handler, req: Request, at: int)
    ensures Erase(Chain(c, 0, names, Innermost(span, next))(req, at)) == Erase(Plain(c, next, req, at))
  {
    ChainIsPlain(c, 0, names, Innermost(span, next), req, at);
    assert c[0..] == c;
    InnermostErased(span, next);
    PlainErased(c, Innermost(span, next), next, req, at);
  }

  // ------------------------------------------------------------------ laws

  lemma {:induction false} PlainConcat(a: seq<Filter>, b: seq<Filter>, inner: Handler, req: Request, at: int)
    ensures Erase(Plain(a + b, inner, req, at)) == Erase(Plain(a, PlainHandler(b, inner), req, at))
    decreases |a|
  {
    if a == [] {
      assert a + b == b;
    } else {
      assert (a + b)[0] == a[0] && (a + b)[1..] == a[1..] + b;
      var g, h := PlainRest(a + b, inner), PlainRest(a, PlainHandler(b, inner));
      forall q, n
        ensures Erase(g(q, n)) == Erase(h(q, n))
      {
        PlainConcat(a[1..], b, inner, q, n);
      }
      ApplyErased(a[0], req, [], g, h, at);
    }
  }

  /**
    Filter of a concatenation is Filter of the first chain around Filter of the second, up
    to spans: the composed form differs in span names and in one more innermost span.
   */
  lemma FilterConcat(a: seq<Filter>, b: seq<Filter>, names: Option<seq<string>>, namesA: Option<seq<string>>,
                     namesB: Option<seq<string>>, span: string, next: Handler, req: Request, at: int)
    ensures Erase(Chain(a + b, 0, names, Innermost(span, next))(req, at)) ==
            Erase(Chain(a, 0, namesA, Innermost(span, Chain(b, 0, namesB, Innermost(span, next))))(req, at))
  {
    var second, plain := Chain(b, 0, namesB, Innermost(span, next)), PlainHandler(b, next);
    FilterMeansPlain(a + b, names, span, next, req, at);
    FilterMeansPlain(a, namesA, span, second, req, at);
    PlainConcat(a, b, next, req, at);
    forall q, n
      ensures Erase(second(q, n)) == Erase(plain(q, n))
    {
      FilterMeansPlain(b, namesB, span, next, q, n);
    }
    PlainErased(a, second, plain, req, at);
  }

  lemma ApplyNoop(next: Handler, req: Request, at: int)
    ensures Apply(Noop, req, [], next, at) == next(req, at)
  {
    ApplyOnce([], [], next, req, at);
    assert Marks([]) + next(req, at).trace + Marks([]) == next(req, at).trace;
  }

  lemma PlainNoop(b: seq<Filter>, next: Handler, req: Request, at: int)
    ensures Plain([Noop] + b, next, req, at) == Plain(b, next, req, at)
  {
    var c := [Noop] + b;
    assert c[0] == Noop && c[1..] == b;
    ApplyNoop(PlainRest(c, next), req, at);
  }

  lemma PlainWithNoop(a: seq<Filter>, b: seq<Filter>, next: Handler, req: Request, at: int)
    ensures Erase(Plain(a + ([Noop] + b), next, req, at)) == Erase(Plain(a + b, next, req, at))
  {
    PlainConcat(a, [Noop] + b, next, req, at);
    PlainConcat(a, b, next, req, at);
    var g, h := PlainHandler([Noop] + b, next), PlainHandler(b, next);
    forall q, n
      ensures Erase(g(q, n)) == Erase(h(q, n))
    {
      PlainNoop(b, next, q, n);
    }
    PlainErased(a, g, h, req, at);
  }

  /** A noop filter anywhere in a chain makes no difference, up to spans. */
  lemma NoopIsIdentity(a: seq<Filter>, b: seq<Filter>, names: Option<seq<string>>, names': Option<seq<string>>,
                       span: string, next: Handler, req: Request, at: int)
    ensures Erase(Chain(a + [Noop] + b, 0, names, Innermost(span, next))(req, at)) ==
            Erase(Chain(a + b, 0, names', Innermost(span, next))(req, at))
  {
    assert a + [Noop] + b == a + ([Noop] + b);
    FilterMeansPlain(a + [Noop] + b, names, span, next, req, at);
    FilterMeansPlain(a + b, names', span, next, req, at);
    PlainWithNoop(a, b, next, req, at);
  }

  // ------------------------------------------------------------------ spans

  /** Reading a trace against a stack of open spans; None when a span is closed out of turn. */
  function Scan(t: seq<Event>, open: seq<string>): Option<seq<string>> {
    if t == [] then Some(open)
    else
      match t[0]
      case Open(name) => Scan(t[1..], open + [name])
      case Close(name) =>
        if open != [] && open[|open| - 1] == name then Scan(t[1..], open[..|open| - 1]) else None
      case Mark(_) => Scan(t[1..], open)
  }

  /** Properly nested: every span opened is closed, in reverse order, whatever surrounds the trace. */
  ghost predicate Nested(t: seq<Event>) {
    forall open :: Scan(t, open) == Some(open)
  }

  lemma {:induction false} ScanConcat(a: seq<Event>, b: seq<Event>, open: seq<string>)
    ensures Scan(a + b, open) == (var s := Scan(a, open); if s.Some? then Scan(b, s.value) else None)
    decreases |a|
  {
    if a == [] {
      assert a + b == b;
    } else {
      assert (a + b)[0] == a[0] && (a + b)[1..] == a[1..] + b;
      match a[0]
      case Open(name) => ScanConcat(a[1..], b, open + [name]);
      case Close(name) =>
        if open != [] && open[|open| - 1] == name {
          ScanConcat(a[1..], b, open[..|open| - 1]);
        }
      case Mark(_) => ScanConcat(a[1..], b, open);
    }
  }

  lemma NestedConcat(a: seq<Event>, b: seq<Event>)
    requires Nested(a) && Nested(b)
    ensures Nested(a + b)
  {
    forall open
      ensures Scan(a + b, open) == Some(open)
    {
      ScanConcat(a, b, open);
    }
  }

  lemma NestedSpanned(name: string, o: Outcome)
    requires Nested(o.trace)
    ensures Nested(Spanned(name, o).trace)
  {
    forall open
      ensures Scan(Spanned(name, o).trace, open) == Some(open)
    {
      var pushed := open + [name];
      ScanConcat([Open(name)] + o.trace, [Close(name)], open);
      ScanConcat([Open(name)], o.trace, open);
      assert [Open(name)][1..] == [] && [Close(name)][1..] == [];
      assert Scan(o.trace, pushed) == Some(pushed);
      assert pushed[|pushed| - 1] == name && pushed[..|pushed| - 1] == open;
    }
  }

  /** A handler whose spans always nest. */
  ghost predicate AlwaysNested(h: Handler) {
    forall q, n :: Nested(h(q, n).trace)
  }

  lemma {:induction false} NestedMarks(ids: seq<int>)
    ensures Nested(Marks(ids))
    decreases |ids|
  {
    if ids != [] {
      NestedMarks(ids[1..]);
      assert Marks(ids)[0] == Mark(ids[0]) && Marks(ids)[1..] == Marks(ids[1..]);
    }
  }

  lemma {:induction false} NestedApply(f: Filter, req: Request, h: seq<Answer>, next: Handler, at: int)
    requires AlwaysNested(next)
    ensures Nested(Apply(f, req, h, next, at).trace)
    decreases f.rank(req, h)
  {
    NestedMarks(f.move(req, h).marks);
    match f.move(req, h)
    case CallNext(marks, q) =>
      var o := next(q, at);
      NestedApply(f, req, h + [o.answer], next, o.calls);
      NestedConcat(Marks(marks), o.trace);
      NestedConcat(Marks(marks) + o.trace, Apply(f, req, h + [o.answer], next, o.calls).trace);
    case Return(_, _) =>
  }

  lemma WrappedNests(f: Filter, i: int, names: Option<seq<string>>, next: Handler)
    requires AlwaysNested(next)
    ensures AlwaysNested(Wrapped(f, i, names, next))
  {
    forall q, n
      ensures Nested(Wrapped(f, i, names, next)(q, n).trace)
    {
      NestedApply(f, q, [], next, n);
      if names.Some? {
        NestedSpanned(NameOf(names.value, i), Apply(f, q, [], next, n));
      }
    }
  }

  /** Whatever the filters do, with names or without, the spans of a chain nest properly. */
  lemma {:induction false} SpansNest(c: seq<Filter>, i: nat, names: Option<seq<string>>, inner: Handler)
    returns (chain: Handler)
    requires i <= |c| && AlwaysNested(inner)
    ensures chain == Chain(c, i, names, inner) && AlwaysNested(chain)
    decreases |c| - i
  {
    if i == |c| {
      chain := inner;
    } else {
      var rest := SpansNest(c, i + 1, names, inner);
      WrappedNests(c[i], i, names, rest);
      chain := Wrapped(c[i], i, names, rest);
    }
  }

  /** The whole of Filter, the innermost span included. */
  lemma FilterSpansNest(c: seq<Filter>, names: Option<seq<string>>, span: string, next: Handler)
    requires AlwaysNested(next)
    ensures AlwaysNested(Chain(c, 0, names, Innermost(span, next)))
  {
    var inner := Innermost(span, next);
    forall q, n
      ensures Nested(inner(q, n).trace)
    {
      NestedSpanned(span, next(q, n));
    }
    var chain := SpansNest(c, 0, names, inner);
  }

  // ------------------------------------------------------------------ interceptors that call next once

  /** The marks an interceptor leaves before and after its call of next. */
  datatype Parts = Parts(pre: seq<int>, post: seq<int>)

  function FiltersOf(os: seq<Parts>): seq<Filter> {
    seq(|os|, i requires 0 <= i < |os| => Once(os[i].pre, os[i].post))
  }

  /** Pre-parts in the order of the chain. */
  function Pres(os: seq<Parts>): seq<int> {
    if os == [] then [] else os[0].pre + Pres(os[1..])
  }

  /** Post-parts in reverse. */
  function Posts(os: seq<Parts>): seq<int> {
    if os == [] then [] else Posts(os[1..]) + os[0].post
  }

  lemma ApplyOnce(pre: seq<int>, post: seq<int>, next: Handler, req: Request, at: int)
    ensures Apply(Once(pre, post), req, [], next, at) ==
            next(req, at).(trace := Marks(pre) + next(req, at).trace + Marks(post))
  {
    var o := next(req, at);
    var h := [] + [o.answer];
    assert h[0] == o.answer;
    assert Apply(Once(pre, post), req, h, next, o.calls) == Outcome(Marks(post), o.answer, o.calls);
  }

  lemma MarksConcat(a: seq<int>, b: seq<int>)
    ensures Marks(a + b) == Marks(a) + Marks(b)
  {
  }

  lemma Around(a: seq<Event>, b: seq<Event>, t: seq<Event>, c: seq<Event>, d: seq<Event>)
    ensures a + (b + t + c) + d == (a + b) + t + (c + d)
  {
  }

  /**
    A chain of interceptors that call next once runs the wrapped function exactly once and
    returns its answer; the trace is all pre-parts in order, the function, and all post-parts
    in reverse order.
   */
  lemma {:induction false} OnceChain(os: seq<Parts>, inner: Handler, req: Request, at: int)
    ensures Plain(FiltersOf(os), inner, req, at) ==
            inner(req, at).(trace := Marks(Pres(os)) + inner(req, at).trace + Marks(Posts(os)))
    decreases |os|
  {
    if os == [] {
      assert Marks([]) + inner(req, at).trace + Marks([]) == inner(req, at).trace;
    } else {
      var c := FiltersOf(os);
      assert c[1..] == FiltersOf(os[1..]);
      OnceChain(os[1..], inner, req, at);
      ApplyOnce(os[0].pre, os[0].post, PlainRest(c, inner), req, at);
      MarksConcat(os[0].pre, Pres(os[1..]));
      MarksConcat(Posts(os[1..]), os[0].post);
      Around(Marks(os[0].pre), Marks(Pres(os[1..])), inner(req, at).trace, Marks(Posts(os[1..])), Marks(os[0].post));
    }
  }

  function Opening(names: Option<seq<string>>, i: int): seq<Event> {
    if names.Some? then [Open(NameOf(names.value, i))] else []
  }

  function Closing(names: Option<seq<string>>, i: int): seq<Event> {
    if names.Some? then [Close(NameOf(names.value, i))] else []
  }

  /** Entering filters i, i+1, ...: the span of each, then its pre-part. */
  function Entering(os: seq<Parts>, i: nat, names: Option<seq<string>>): seq<Event>
    requires i <= |os|
    decreases |os| - i
  {
    if i == |os| then [] else Opening(names, i) + Marks(os[i].pre) + Entering(os, i + 1, names)
  }

  /** Leaving them in reverse: the post-part of each, then the end of its span. */
  function Exiting(os: seq<Parts>, i: nat, names: Option<seq<string>>): seq<Event>
    requires i <= |os|
    decreases |os| - i
  {
    if i == |os| then [] else Exiting(os, i + 1, names) + (Marks(os[i].post) + Closing(names, i))
  }

  lemma WrappedOnce(o: Parts, i: int, names: Option<seq<string>>, next: Handler, req: Request, at: int)
    ensures Wrapped(Once(o.pre, o.post), i, names, next)(req, at) ==
            next(req, at).(trace :=
              (Opening(names, i) + Marks(o.pre)) + next(req, at).trace + (Marks(o.post) + Closing(names, i)))
  {
    ApplyOnce(o.pre, o.post, next, req, at);
    Around(Opening(names, i), Marks(o.pre), next(req, at).trace, Marks(o.post), Closing(names, i));
    var t := Marks(o.pre) + next(req, at).trace + Marks(o.post);
    assert [] + t + [] == t;
  }

  /** The same chain as the loop builds it, span by span. */
  lemma {:induction false} OnceSpans(os: seq<Parts>, i: nat, names: Option<seq<string>>, inner: Handler,
                                     req: Request, at: int)
    requires i <= |os|
    ensures Chain(FiltersOf(os), i, names, inner)(req, at) ==
            inner(req, at).(trace := Entering(os, i, names) + inner(req, at).trace + Exiting(os, i, names))
    decreases |os| - i
  {
    var t := inner(req, at).trace;
    if i == |os| {
      assert [] + t + [] == t;
    } else {
      OnceSpans(os, i + 1, names, inner, req, at);
      WrappedOnce(os[i], i, names, Chain(FiltersOf(os), i + 1, names, inner), req, at);
      Around(Opening(names, i) + Marks(os[i].pre), Entering(os, i + 1, names), t,
             Exiting(os, i + 1, names), Marks(os[i].post) + Closing(names, i));
    }
  }

  // ------------------------------------------------------------------ span names

  /** The names of the spans a trace opens, in order. */
  function Opened(t: seq<Event>): seq<string> {
    if t == [] then [] else (if t[0].Open? then [t[0].span] else []) + Opened(t[1..])
  }

  lemma {:induction false} OpenedConcat(a: seq<Event>, b: seq<Event>)
    ensures Opened(a + b) == Opened(a) + Opened(b)
  {
    if a == [] {
      assert a + b == b;
    } else {
      assert (a + b)[0] == a[0] && (a + b)[1..] == a[1..] + b;
      OpenedConcat(a[1..], b);
    }
  }

  lemma {:induction false} OpenedMarks(ids: seq<int>)
    ensures Opened(Marks(ids)) == []
    decreases |ids|
  {
    if ids != [] {
      OpenedMarks(ids[1..]);
      assert Marks(ids)[0] == Mark(ids[0]) && Marks(ids)[1..] == Marks(ids[1..]);
    }
  }

  /**
    Each filter of a chain runs in the span of its own name, in the order of the chain, and
    in one named unknown if there are fewer names than filters.
   */
  lemma {:induction false} SpanNames(os: seq<Parts>, i: nat, names: seq<string>)
    requires i <= |os|
    ensures |Opened(Entering(os, i, Some(names)))| == |os| - i
    ensures forall k | i <= k < |os| ::
      Opened(Entering(os, i, Some(names)))[k - i] == if k < |names| then names[k] else "unknown"
    decreases |os| - i
  {
    if i < |os| {
      var rest := Entering(os, i + 1, Some(names));
      SpanNames(os, i + 1, names);
      OpenedConcat(Opening(Some(names), i) + Marks(os[i].pre), rest);
      OpenedConcat(Opening(Some(names), i), Marks(os[i].pre));
      OpenedMarks(os[i].pre);
      assert Opening(Some(names), i)[1..] == [];
      var all := Opened(Entering(os, i, Some(names)));
      assert all == [NameOf(names, i)] + Opened(rest);
      forall k | i <= k < |os|
        ensures all[k - i] == if k < |names| then names[k] else "unknown"
      {
        if k > i {
          assert all[k - i] == Opened(rest)[k - (i + 1)];
        }
      }
    }
  }
}
