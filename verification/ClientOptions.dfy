/**
  Per-RPC client options (client/options.go, client/client.go): Go slices with shared
  backing arrays, the shallow clone, and the capacity rebuild that keeps RPCs apart.
 */
module ClientOptions {
  /** An option, filter or filter name; only its identity matters here. */
  datatype Item = Item(id: int)

  /** The appended slice fields of Options; each has its own element type. */
  datatype Field = CallOptions | SelectOptions | Filters | FilterNames | StreamFilters

  /** The fields rebuildSliceCapacity handles; StreamFilters is not one of them. */
  predicate Rebuilt(f: Field) {
    f != StreamFilters
  }

  /** A backing array: its element type, its length, and its cells. */
  class Buffer {
    const kind: Field
    const cap: nat
    var cells: seq<Item>

    constructor (kind: Field, cells: seq<Item>)
      ensures this.kind == kind && this.cap == |cells| && this.cells == cells
    {
      this.kind, this.cap, this.cells := kind, |cells|, cells;
    }
  }

  /** A Go slice starting at the head of its array. */
  datatype Slice = Slice(buf: Buffer, len: nat) {
    ghost predicate Valid()
      reads buf
    {
      len <= buf.cap == |buf.cells|
    }

    predicate Full() {
      len == buf.cap
    }

    ghost function Contents(): seq<Item>
      requires Valid()
      reads buf
    {
      buf.cells[..len]
    }
  }

  function Overwritten(t: seq<Item>, at: nat, xs: seq<Item>): (r: seq<Item>)
    requires at + |xs| <= |t|
    ensures |r| == |t| && r[..at] == t[..at] && r[..at + |xs|] == t[..at] + xs
  {
    t[..at] + xs + t[at + |xs|..]
  }

  /**
    Go's append. With room in the capacity the new elements are written into the shared
    array; otherwise everything moves to a new one, with whatever spare room the runtime
    gives it.
   */
  method Append(s: Slice, xs: seq<Item>, spare: seq<Item>) returns (r: Slice)
    requires s.Valid()
    modifies s.buf
    ensures r.Valid() && r.Contents() == old(s.Contents()) + xs && r.buf.kind == s.buf.kind
    ensures s.len + |xs| <= s.buf.cap ==>
      r == Slice(s.buf, s.len + |xs|) && s.buf.cells == Overwritten(old(s.buf.cells), s.len, xs)
    ensures s.len + |xs| > s.buf.cap ==> fresh(r.buf) && s.buf.cells == old(s.buf.cells)
  {
    if s.len + |xs| <= s.buf.cap {
      s.buf.cells := Overwritten(s.buf.cells, s.len, xs);
      return Slice(s.buf, s.len + |xs|);
    }
    var buf := new Buffer(s.buf.kind, s.buf.cells[..s.len] + xs + spare);
    return Slice(buf, s.len + |xs|);
  }

  class Options {
    var callOptions: Slice
    var selectOptions: Slice
    var filters: Slice
    var filterNames: Slice
    var streamFilters: Slice

    function Get(f: Field): Slice
      reads this
    {
      match f
      case CallOptions => callOptions
      case SelectOptions => selectOptions
      case Filters => filters
      case FilterNames => filterNames
      case StreamFilters => streamFilters
    }

    ghost function Arrays(): (bufs: set<Buffer>)
      reads this
      ensures forall f: Field :: Get(f).buf in bufs
    {
      {callOptions.buf, selectOptions.buf, filters.buf, filterNames.buf, streamFilters.buf}
    }

    ghost predicate Valid()
      reads this, Arrays()
    {
      forall f: Field :: Get(f).Valid() && Get(f).buf.kind == f
    }

    ghost function View(f: Field): seq<Item>
      requires Get(f).Valid()
      reads this, Get(f).buf
    {
      Get(f).Contents()
    }

    /** NewOptions: every slice nil. */
    constructor ()
      ensures Valid() && forall f: Field :: Get(f).Full() && View(f) == [] && fresh(Get(f).buf)
    {
      var a := new Buffer(CallOptions, []);
      var b := new Buffer(SelectOptions, []);
      var c := new Buffer(Filters, []);
      var d := new Buffer(FilterNames, []);
      var e := new Buffer(StreamFilters, []);
      callOptions, selectOptions, filters := Slice(a, 0), Slice(b, 0), Slice(c, 0);
      filterNames, streamFilters := Slice(d, 0), Slice(e, 0);
    }

    /** The struct copy of clone: all five slices are shared. */
    constructor CopyOf(o: Options)
      ensures forall f: Field :: Get(f) == o.Get(f)
    {
      callOptions, selectOptions, filters := o.callOptions, o.selectOptions, o.filters;
      filterNames, streamFilters := o.filterNames, o.streamFilters;
    }

    method Set(f: Field, s: Slice)
      modifies this
      ensures Get(f) == s && forall g: Field :: g != f ==> Get(g) == old(Get(g))
    {
      match f
      case CallOptions => callOptions := s;
      case SelectOptions => selectOptions := s;
      case Filters => filters := s;
      case FilterNames => filterNames := s;
      case StreamFilters => streamFilters := s;
    }

    /** An appending option or call site: opts.F = append(opts.F, xs...). */
    method AppendTo(f: Field, xs: seq<Item>, spare: seq<Item>)
      requires Valid()
      modifies this, Get(f).buf
      ensures Valid() && View(f) == old(View(f)) + xs
      ensures forall g: Field :: g != f ==> Get(g) == old(Get(g))
      ensures Get(f).buf == old(Get(f).buf) || fresh(Get(f).buf)
      ensures old(Get(f).Full()) || Get(f).buf != old(Get(f).buf) ==>
        old(Get(f).buf).cells == old(Get(f).buf.cells)
      ensures old(Get(f).Full()) && Get(f).buf == old(Get(f).buf) ==> Get(f) == old(Get(f))
      ensures |old(Get(f).buf).cells| == old(Get(f).buf).cap
    {
      var s := Append(Get(f), xs, spare);
      Set(f, s);
    }

    /** One step of rebuildSliceCapacity: an array of exactly the right length. */
    method RebuildField(f: Field)
      requires Valid()
      modifies this
      ensures Valid() && forall g: Field :: View(g) == old(View(g))
      ensures forall g: Field :: g != f ==> Get(g) == old(Get(g))
      ensures Get(f).Full() && (Get(f) == old(Get(f)) || fresh(Get(f).buf))
    {
      var s := Get(f);
      if s.len != s.buf.cap {
        var buf := new Buffer(f, s.buf.cells[..s.len]);
        Set(f, Slice(buf, s.len));
      }
    }

    method RebuildSliceCapacity()
      requires Valid()
      modifies this
      ensures Valid() && forall f: Field :: View(f) == old(View(f))
      ensures forall f: Field :: Rebuilt(f) ==> Get(f).Full() && (Get(f) == old(Get(f)) || fresh(Get(f).buf))
      ensures forall f: Field :: !Rebuilt(f) ==> Get(f) == old(Get(f))
      ensures callOptions.Full() && selectOptions.Full() && filters.Full() && filterNames.Full()
      ensures streamFilters == old(streamFilters)
    {
      RebuildField(CallOptions);
      RebuildField(SelectOptions);
      RebuildField(Filters);
      RebuildField(FilterNames);
      assert Get(CallOptions).Full() && Get(SelectOptions).Full() && Get(Filters).Full() && Get(FilterNames).Full();
      assert Get(StreamFilters) == old(Get(StreamFilters));
    }
  }

  // ------------------------------------------------------------------ isolation

  ghost function Buffers(objs: seq<Options>): set<Buffer>
    reads objs
  {
    set i, b | 0 <= i < |objs| && b in objs[i].Arrays() :: b
  }

  /** Distinct options objects, all of them well formed. */
  ghost predicate World(objs: seq<Options>)
    reads objs, Buffers(objs)
  {
    && (forall i, j | 0 <= i < j < |objs| :: objs[i] != objs[j])
    && (forall i | 0 <= i < |objs| :: objs[i].Valid())
  }

  /** Two objects share the array of a field only when neither has room to append into it. */
  ghost predicate Apart(objs: seq<Options>, f: Field)
    reads objs
  {
    forall i, j | 0 <= i < |objs| && 0 <= j < |objs| && i != j && objs[i].Get(f).buf == objs[j].Get(f).buf ::
      objs[i].Get(f).Full()
  }

  /** What the objects read from a field. */
  ghost predicate Holds(objs: seq<Options>, f: Field, lists: seq<seq<Item>>)
    requires forall i | 0 <= i < |objs| :: objs[i].Get(f).Valid()
    reads objs, set i | 0 <= i < |objs| :: objs[i].Get(f).buf
  {
    |lists| == |objs| && forall i | 0 <= i < |objs| :: objs[i].View(f) == lists[i]
  }

  /** An append to one of the objects: where it writes, and that the others keep their slices. */
  method AppendAmong(objs: seq<Options>, at: nat, g: Field, xs: seq<Item>, spare: seq<Item>)
    requires World(objs) && at < |objs|
    modifies objs[at], objs[at].Get(g).buf
    ensures World(objs) && objs[at].View(g) == old(objs[at].View(g)) + xs
    ensures forall i, h: Field | 0 <= i < |objs| && (i != at || h != g) :: objs[i].Get(h) == old(objs[i].Get(h))
    ensures objs[at].Get(g).buf == old(objs[at].Get(g).buf) || fresh(objs[at].Get(g).buf)
    ensures old(objs[at].Get(g).Full()) || objs[at].Get(g).buf != old(objs[at].Get(g).buf) ==>
      old(objs[at].Get(g).buf).cells == old(objs[at].Get(g).buf.cells)
    ensures old(objs[at].Get(g).Full()) && objs[at].Get(g).buf == old(objs[at].Get(g).buf) ==>
      objs[at].Get(g) == old(objs[at].Get(g))
  {
    objs[at].AppendTo(g, xs, spare);
    forall i | 0 <= i < |objs|
      ensures objs[i].Valid()
    {
      if i != at {
        assert old(objs[i].Valid());
      }
    }
  }

  /** An append to one object is seen by that object alone, for every field f kept apart. */
  method AppendStep(objs: seq<Options>, at: nat, g: Field, xs: seq<Item>, spare: seq<Item>,
                    ghost f: Field, ghost lists: seq<seq<Item>>)
    requires World(objs) && at < |objs|
    requires Apart(objs, f) && Holds(objs, f, lists)
    modifies objs[at], objs[at].Get(g).buf
    ensures World(objs)
    ensures forall i, h: Field | 0 <= i < |objs| && (i != at || h != g) :: objs[i].Get(h) == old(objs[i].Get(h))
    ensures objs[at].Get(g).buf == old(objs[at].Get(g).buf) || fresh(objs[at].Get(g).buf)
    ensures Apart(objs, f) && Holds(objs, f, if f == g then lists[at := lists[at] + xs] else lists)
  {
    AppendAmong(objs, at, g, xs, spare);
    ghost var after := if f == g then lists[at := lists[at] + xs] else lists;
    forall i | 0 <= i < |objs|
      ensures objs[i].View(f) == after[i]
    {
      assert old(objs[i].View(f)) == lists[i];
    }
  }

  /** One more object, reading what another one reads and sharing only full slices. */
  lemma Joined(objs: seq<Options>, o: Options, at: nat, f: Field, lists: seq<seq<Item>>)
    requires World(objs) && at < |objs| && o !in objs && o.Valid()
    requires Apart(objs, f) && Holds(objs, f, lists) && o.View(f) == objs[at].View(f)
    requires o.Get(f).Full()
    requires forall i | 0 <= i < |objs| && objs[i].Get(f).buf == o.Get(f).buf :: objs[i].Get(f).Full()
    ensures World(objs + [o]) && Apart(objs + [o], f) && Holds(objs + [o], f, lists + [lists[at]])
  {
    var all := objs + [o];
    assert forall i | 0 <= i < |objs| :: all[i] == objs[i];
    assert World(all);
  }

  /** clone: the copy shares every slice, so f must be full to stay apart. */
  method CloneStep(objs: seq<Options>, at: nat, ghost f: Field, ghost lists: seq<seq<Item>>) returns (o: Options)
    requires World(objs) && at < |objs|
    requires Apart(objs, f) && Holds(objs, f, lists) && objs[at].Get(f).Full()
    ensures fresh(o) && World(objs + [o])
    ensures forall h: Field :: o.Get(h) == objs[at].Get(h)
    ensures Apart(objs + [o], f) && Holds(objs + [o], f, lists + [lists[at]])
  {
    o := new Options.CopyOf(objs[at]);
    Joined(objs, o, at, f, lists);
  }

  /** What selectorFilter does when the options are immutable: clone and rebuild, from any object. */
  method CloneAndRebuildStep(objs: seq<Options>, at: nat, ghost f: Field, ghost lists: seq<seq<Item>>)
    returns (o: Options)
    requires World(objs) && at < |objs| && Rebuilt(f)
    requires Apart(objs, f) && Holds(objs, f, lists)
    ensures fresh(o) && World(objs + [o])
    ensures forall h: Field :: o.Get(h).buf == objs[at].Get(h).buf || fresh(o.Get(h).buf)
    ensures Apart(objs + [o], f) && Holds(objs + [o], f, lists + [lists[at]])
  {
    o := new Options.CopyOf(objs[at]);
    o.RebuildSliceCapacity();
    Joined(objs, o, at, f, lists);
  }

  // ------------------------------------------------------------------ runs

  /**
    A step of some RPC. Object 0 is the registered original: it is cloned, never appended
    to. Any other object may be appended to or, by selectorFilter, cloned and rebuilt.
   */
  datatype Command = CloneOf(src: nat) | AppendAt(at: nat, field: Field, xs: seq<Item>, spare: seq<Item>)

  /** The same step with one private list per object. */
  function ReplayStep(lists: seq<seq<Item>>, cmd: Command, f: Field): seq<seq<Item>> {
    match cmd
    case CloneOf(i) => if i < |lists| then lists + [lists[i]] else lists
    case AppendAt(i, g, xs, _) =>
      if g == f && 0 < i < |lists| then lists[i := lists[i] + xs] else lists
  }

  /** What callers expect to read from a field after a run. */
  function Replay(script: seq<Command>, f: Field, original: seq<Item>): seq<seq<Item>> {
    if script == [] then [original]
    else ReplayStep(Replay(script[..|script| - 1], f, original), script[|script| - 1], f)
  }

  /** The field is rebuilt, or only the original is ever cloned. */
  predicate Keeps(cmd: Command, f: Field) {
    Rebuilt(f) || (cmd.CloneOf? ==> cmd.src == 0)
  }

  /** Only StreamFilters asks for more than the rebuild gives. */
  lemma RebuiltFields(cmd: Command, f: Field)
    ensures f in {CallOptions, SelectOptions, Filters, FilterNames} ==> Rebuilt(f) && Keeps(cmd, f)
    ensures f == StreamFilters ==> (Keeps(cmd, f) <==> cmd.AppendAt? || cmd.src == 0)
  {
  }

  /** One command: what the objects read from f afterwards is what private lists would hold. */
  method Step(objs: seq<Options>, cmd: Command, ghost f: Field, ghost lists: seq<seq<Item>>) returns (r: seq<Options>)
    requires World(objs) && |objs| >= 1 && Apart(objs, f) && Holds(objs, f, lists)
    requires Keeps(cmd, f) && objs[0].Get(f).Full()
    modifies if cmd.AppendAt? && 0 < cmd.at < |objs| then {objs[cmd.at]} else {},
      if cmd.AppendAt? && 0 < cmd.at < |objs| then {objs[cmd.at].Get(cmd.field).buf} else {}
    ensures World(r) && Apart(r, f) && Holds(r, f, ReplayStep(lists, cmd, f))
    ensures objs <= r && |r| <= |objs| + 1
    ensures forall i, h: Field | 0 <= i < |objs| ::
      fresh(r[i].Get(h).buf) || r[i].Get(h).buf == old(objs[i].Get(h).buf)
    ensures |r| > |objs| ==>
      && cmd.CloneOf? && cmd.src < |objs| && fresh(r[|objs|])
      && forall h: Field :: fresh(r[|objs|].Get(h).buf) || r[|objs|].Get(h).buf == objs[cmd.src].Get(h).buf
  {
    r := objs;
    match cmd
    case CloneOf(i) =>
      if i == 0 {
        var o := CloneStep(objs, i, f, lists);
        r := objs + [o];
      } else if i < |objs| {
        var o := CloneAndRebuildStep(objs, i, f, lists);
        r := objs + [o];
      }
    case AppendAt(i, g, xs, spare) =>
      if 0 < i < |objs| {
        AppendStep(objs, i, g, xs, spare, f, lists);
      }
  }

  /** Every object but the original is new, and so is every array that is not the original's. */
  twostate predicate Contained(new objs: seq<Options>, original: Options)
    reads objs, original
  {
    && |objs| >= 1 && objs[0] == original
    && (forall i | 0 < i < |objs| :: fresh(objs[i]))
    && (forall i, h: Field | 0 <= i < |objs| ::
          fresh(objs[i].Get(h).buf) || objs[i].Get(h).buf in old(original.Arrays()))
  }

  /**
    Per-RPC options do not interfere. Once rebuildSliceCapacity has run on the original,
    every interleaving of clones and appends leaves each object, and the original, with
    exactly its own appends in every field f: the shared slices cannot be told from
    private lists. StreamFilters, which is not rebuilt, behaves so if the original has no
    spare capacity there and only the original is cloned.
   */
  method Run(original: Options, script: seq<Command>, ghost f: Field) returns (objs: seq<Options>)
    requires original.Valid() && original.Get(f).Full()
    requires forall k | 0 <= k < |script| :: Keeps(script[k], f)
    modifies original.Arrays()
    ensures World(objs) && |objs| >= 1 && objs[0] == original
    ensures Holds(objs, f, Replay(script, f, old(original.View(f))))
  {
    ghost var start := original.View(f);
    objs := [original];
    for n := 0 to |script|
      invariant World(objs) && Contained(objs, original) && Apart(objs, f)
      invariant Holds(objs, f, Replay(script[..n], f, start))
    {
      assert script[..n + 1][..n] == script[..n];
      ghost var lists := Replay(script[..n], f, start);
      assert Replay(script[..n + 1], f, start) == ReplayStep(lists, script[n], f);
      objs := Step(objs, script[n], f, lists);
    }
    assert script[..|script|] == script;
  }

  /**
    Why the capacity must be rebuilt: two RPCs appending to copies of one slice. The first
    one's elements survive exactly when one of the appends does not fit the capacity, or
    the two agree wherever they overlap.
   */
  method AppendTwice(s: Slice, xs: seq<Item>, ys: seq<Item>) returns (a: Slice, b: Slice)
    requires s.Valid()
    modifies s.buf
    ensures a.Valid() && b.Valid() && b.Contents() == old(s.Contents()) + ys
    ensures a.Contents() == old(s.Contents()) + xs
       <==> || s.len + |xs| > s.buf.cap || s.len + |ys| > s.buf.cap
            || (forall i | 0 <= i < |xs| && i < |ys| :: xs[i] == ys[i])
  {
    ghost var cells := s.buf.cells;
    a := Append(s, xs, []);
    b := Append(s, ys, []);
    if s.len + |xs| <= s.buf.cap && s.len + |ys| <= s.buf.cap {
      OverwrittenTwice(cells, s.len, xs, ys);
    }
  }

  lemma OverwrittenTwice(t: seq<Item>, at: nat, xs: seq<Item>, ys: seq<Item>)
    requires at + |xs| <= |t| && at + |ys| <= |t|
    ensures Overwritten(Overwritten(t, at, xs), at, ys)[..at + |xs|] == t[..at] + xs
       <==> forall i | 0 <= i < |xs| && i < |ys| :: xs[i] == ys[i]
  {
    var r := Overwritten(Overwritten(t, at, xs), at, ys)[..at + |xs|];
    assert forall i | 0 <= i < |xs| :: r[at + i] == if i < |ys| then ys[i] else xs[i];
    if r == t[..at] + xs {
      assert forall i | 0 <= i < |xs| :: r[at + i] == xs[i];
    }
  }
}
