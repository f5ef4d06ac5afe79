/** Selecting from a list with order kept, and lists without two elements of one key. */
module Selection {
  function Kept<T>(items: seq<T>, keep: T -> bool): seq<T> {
    if items == [] then []
    else
      var n := |items| - 1;
      Kept(items[..n], keep) + (if keep(items[n]) then [items[n]] else [])
  }

  predicate UniqueBy<T, K(==)>(items: seq<T>, key: T -> K) {
    forall i, j | 0 <= i < j < |items| :: key(items[i]) != key(items[j])
  }

  lemma {:induction false} KeptElements<T>(items: seq<T>, keep: T -> bool, x: T)
    ensures x in Kept(items, keep) <==> x in items && keep(x)
  {
    if items != [] {
      var n := |items| - 1;
      KeptElements(items[..n], keep, x);
      assert items == items[..n] + [items[n]];
    }
  }

  lemma {:induction false} KeptUnique<T, K>(items: seq<T>, keep: T -> bool, key: T -> K)
    requires UniqueBy(items, key)
    ensures UniqueBy(Kept(items, keep), key)
  {
    if items != [] {
      var n := |items| - 1;
      var front := Kept(items[..n], keep);
      KeptUnique(items[..n], keep, key);
      forall k | 0 <= k < |front|
        ensures key(front[k]) != key(items[n])
      {
        KeptElements(items[..n], keep, front[k]);
        var j :| 0 <= j < n && items[..n][j] == front[k];
        assert items[j] == front[k];
      }
    }
  }

  /** The order is kept: what is selected comes from positions that increase. */
  lemma {:induction false} KeptInOrder<T>(items: seq<T>, keep: T -> bool) returns (at: seq<nat>)
    ensures |at| == |Kept(items, keep)|
    ensures forall k | 0 <= k < |at| :: at[k] < |items| && items[at[k]] == Kept(items, keep)[k]
    ensures forall k, l | 0 <= k < l < |at| :: at[k] < at[l]
  {
    at := [];
    if items != [] {
      var n := |items| - 1;
      at := KeptInOrder(items[..n], keep);
      assert forall k | 0 <= k < |at| :: at[k] < n && items[at[k]] == items[..n][at[k]];
      if keep(items[n]) {
        at := at + [n];
      }
    }
  }

  /** Two opposite selections together make up the list. */
  lemma {:induction false} KeptCounts<T>(items: seq<T>, keep: T -> bool, drop: T -> bool)
    requires forall x | x in items :: keep(x) != drop(x)
    ensures multiset(Kept(items, keep)) + multiset(Kept(items, drop)) == multiset(items)
  {
    if items != [] {
      var n := |items| - 1;
      KeptCounts(items[..n], keep, drop);
      assert items == items[..n] + [items[n]];
      assert items[n] in items;
      if keep(items[n]) {
        assert Kept(items, drop) == Kept(items[..n], drop);
      } else {
        assert Kept(items, keep) == Kept(items[..n], keep);
      }
    }
  }
}

/**
  The business configuration loader (config/trpc_config.go): a config and its cached
  entity, the set of configs of one path, and the interleavings of its callers.
 */
module ConfigLoader {
  import opened Outcomes
  import opened Selection

  /** Parsed content; only its identity matters here. */
  datatype Data = Data(id: int)

  /** Raw bytes as read (after expansion of environment variables) and what they parsed to. */
  datatype Entity = Entity(raw: string, data: Data)

  /** What identifies a config within a path: everything its printed id mentions. */
  datatype Id = Id(provider: string, path: string, codec: string, expandEnv: bool, watch: bool)

  datatype LoadError = ReadFailed | ParseFailed

  /** The parser of a codec, and the environment of the process at some moment. */
  type Decoder = string -> Option<Data>
  type Expansion = string -> string

  /** The entity a full `set` leaves behind: a parse failure keeps the last good one. */
  function AfterSet(decode: Decoder, id: Id, expand: Expansion, value: Option<Entity>, read: string): Option<Entity> {
    var raw := if id.expandEnv then expand(read) else read;
    match decode(raw)
    case None => value
    case Some(data) => Some(Entity(raw, data))
  }

  /** The bytes a config is parsed from. */
  function Expanded(id: Id, expand: Expansion, read: string): string {
    if id.expandEnv then expand(read) else read
  }

  /** An entity is the parse of these bytes and holds them. */
  predicate IsParseOf(e: Option<Entity>, decode: Decoder, raw: string) {
    e.Some? && e.value.raw == raw && decode(raw) == Some(e.value.data)
  }

  predicate Parses(decode: Decoder, id: Id, expand: Expansion, read: string) {
    decode(if id.expandEnv then expand(read) else read).Some?
  }

  class TrpcConfig {
    const id: Id
    const decode: Decoder
    var value: Option<Entity>

    /** A cached entity is the parse of its own raw bytes. */
    ghost predicate Valid()
      reads this
    {
      value.Some? ==> decode(value.value.raw) == Some(value.value.data)
    }

    constructor (id: Id, decode: Decoder)
      ensures Valid() && this.id == id && this.decode == decode && value == None
    {
      this.id, this.decode, value := id, decode, None;
    }

    /** set: expand, parse, and replace the value only if that succeeds. */
    method Set(read: string, expand: Expansion) returns (err: Option<LoadError>)
      requires Valid()
      modifies this
      ensures Valid() && value == AfterSet(decode, id, expand, old(value), read)
      ensures err.Some? ==> value == old(value)
      ensures err.None? ==> IsParseOf(value, decode, Expanded(id, expand, read))
      ensures err == if Parses(decode, id, expand, read) then None else Some(ParseFailed)
    {
      var raw := read;
      if id.expandEnv {
        raw := expand(raw);
      }
      match decode(raw)
      case None =>
        return Some(ParseFailed);
      case Some(data) =>
        value := Some(Entity(raw, data));
        return None;
    }

    method SameData(read: string, expand: Expansion) returns (same: bool)
      ensures same <==> value.Some? && value.value.raw == if id.expandEnv then expand(read) else read
    {
      if value.None? {
        return false;
      }
      var raw := read;
      if id.expandEnv {
        raw := expand(raw);
      }
      return value.value.raw == raw;
    }

    /**
      Load skips the parse when the expanded bytes are those already held. That leaves the
      same entity, and reports the same outcome, as the full set would.
     */
    method Load(read: Option<string>, expand: Expansion) returns (err: Option<LoadError>)
      requires Valid()
      modifies this
      ensures Valid()
      ensures err.Some? ==> value == old(value)
      ensures err.None? ==> read.Some? && IsParseOf(value, decode, Expanded(id, expand, read.value))
      ensures read.None? ==> err == Some(ReadFailed) && value == old(value)
      ensures read.Some? ==>
        && value == AfterSet(decode, id, expand, old(value), read.value)
        && err == if Parses(decode, id, expand, read.value) then None else Some(ParseFailed)
    {
      if read.None? {
        return Some(ReadFailed);
      }
      var same := SameData(read.value, expand);
      if same {
        return None;
      }
      err := Set(read.value, expand);
    }

    /** init: a watched config is read once, another one every time. */
    method Init(read: Option<string>, expand: Expansion) returns (err: Option<LoadError>)
      requires Valid()
      modifies this
      ensures Valid()
      ensures err.Some? ==> value == old(value)
      ensures err.None? ==>
        if id.watch && old(value).Some? then value == old(value)
        else read.Some? && IsParseOf(value, decode, Expanded(id, expand, read.value))
      ensures id.watch && old(value).Some? ==> err == None && value == old(value)
      ensures !id.watch || old(value).None? ==>
        if read.None? then err == Some(ReadFailed) && value == old(value)
        else
          && value == AfterSet(decode, id, expand, old(value), read.value)
          && err == if Parses(decode, id, expand, read.value) then None else Some(ParseFailed)
    {
      if id.watch && value.Some? {
        return None;
      }
      if read.None? {
        return Some(ReadFailed);
      }
      err := Set(read.value, expand);
    }
  }

  // ------------------------------------------------------------------ the set of one path

  /** A call of the watch hook: which config, and whether its reload failed. */
  datatype Note = Note(config: TrpcConfig, failed: bool)

  function IdOf(c: TrpcConfig): Id {
    c.id
  }

  predicate IsWatched(c: TrpcConfig) {
    c.id.watch
  }

  predicate IsUnwatched(c: TrpcConfig) {
    !c.id.watch
  }

  /** The two lists a watch splits its items into are disjoint and together make up all of them. */
  lemma WatchPartitions(items: seq<TrpcConfig>)
    requires UniqueBy(items, IdOf)
    ensures multiset(Kept(items, IsWatched)) + multiset(Kept(items, IsUnwatched)) == multiset(items)
    ensures UniqueBy(Kept(items, IsWatched), IdOf) && UniqueBy(Kept(items, IsUnwatched), IdOf)
  {
    KeptUnique(items, IsWatched, IdOf);
    KeptUnique(items, IsUnwatched, IdOf);
    KeptCounts(items, IsWatched, IsUnwatched);
  }

  class ItemSet {
    var items: seq<TrpcConfig>
    var notes: seq<Note>

    ghost predicate Valid()
      reads this, items
    {
      UniqueBy(items, IdOf) && forall i | 0 <= i < |items| :: items[i].Valid()
    }

    constructor ()
      ensures Valid() && items == [] && notes == []
    {
      items, notes := [], [];
    }

    /** get, and the scan of getOrStore under the write lock. */
    method Find(id: Id) returns (c: TrpcConfig?)
      ensures c == null <==> forall i | 0 <= i < |items| :: items[i].id != id
      ensures c != null ==> c in items && c.id == id
    {
      for i := 0 to |items|
        invariant forall k | 0 <= k < i :: items[k].id != id
      {
        if items[i].id == id {
          return items[i];
        }
      }
      return null;
    }

    /** The locked half of getOrStore. */
    method StoreIfAbsent(tc: TrpcConfig) returns (c: TrpcConfig)
      requires Valid() && tc.Valid()
      modifies this`items
      ensures Valid() && c in items && c.id == tc.id
      ensures (items == old(items) && c in old(items)) || (items == old(items) + [tc] && c == tc)
    {
      var found := Find(tc.id);
      if found != null {
        return found;
      }
      items := items + [tc];
      return tc;
    }

    /** getOrStore, its two halves run without interference. */
    method GetOrStore(tc: TrpcConfig) returns (c: TrpcConfig)
      requires Valid() && tc.Valid()
      modifies this`items
      ensures Valid() && c in items && c.id == tc.id
      ensures (items == old(items) && c in old(items)) || (items == old(items) + [tc] && c == tc)
    {
      var found := Find(tc.id);
      if found != null {
        return found;
      }
      c := StoreIfAbsent(tc);
    }

    /** The locked half of watch: unwatched items leave the set, order is kept on both sides. */
    method Partition() returns (kept: seq<TrpcConfig>, dropped: seq<TrpcConfig>)
      requires Valid()
      modifies this`items
      ensures kept == items == Kept(old(items), IsWatched) && dropped == Kept(old(items), IsUnwatched)
      ensures Valid()
    {
      kept, dropped := [], [];
      for i := 0 to |items|
        invariant kept == Kept(items[..i], IsWatched) && dropped == Kept(items[..i], IsUnwatched)
      {
        assert items[..i + 1][..i] == items[..i];
        if items[i].id.watch {
          kept := kept + [items[i]];
        } else {
          dropped := dropped + [items[i]];
        }
      }
      assert items[..|items|] == items;
      KeptUnique(items, IsWatched, IdOf);
      forall i | 0 <= i < |kept|
        ensures kept[i].Valid()
      {
        KeptElements(items, IsWatched, kept[i]);
      }
      items := kept;
    }

    /** The hook calls of a watch: watched configs with the outcome of their reload, then the others. */
    static ghost function NotesFor(configs: seq<TrpcConfig>, expand: Expansion, read: string, reload: bool): seq<Note> {
      seq(|configs|, i requires 0 <= i < |configs| =>
        Note(configs[i], reload && !Parses(configs[i].decode, configs[i].id, expand, read)))
    }

    /**
      watch: every item is notified exactly once, watched ones after a reload that keeps
      the last good entity, in the order they were stored; the others are dropped untouched.
     */
    method Watch(read: string, expand: Expansion)
      requires Valid()
      modifies this, items
      ensures Valid() && items == Kept(old(items), IsWatched)
      ensures notes == old(notes) + NotesFor(Kept(old(items), IsWatched), expand, read, true)
                                  + NotesFor(Kept(old(items), IsUnwatched), expand, read, false)
      ensures forall c | c in old(items) && c.id.watch ::
        if Parses(c.decode, c.id, expand, read) then
          Note(c, false) in notes && IsParseOf(c.value, c.decode, Expanded(c.id, expand, read))
        else Note(c, true) in notes && c.value == old(c.value)
      ensures forall c | c in old(items) ::
        c.value == (if c.id.watch then AfterSet(c.decode, c.id, expand, old(c.value), read) else old(c.value))
    {
      ghost var was := items;
      var kept, dropped := Partition();
      forall c: TrpcConfig | c in kept
        ensures c in was && c.id.watch
      {
        KeptElements(was, IsWatched, c);
      }
      forall c: TrpcConfig | c in was && c.id.watch
        ensures c in kept
      {
        KeptElements(was, IsWatched, c);
      }
      assert forall i | 0 <= i < |kept| :: kept[i] in old(items);
      ReloadAll(kept, read, expand);
      NotifyAll(dropped, expand, read);
      forall c: TrpcConfig | c in was && c.id.watch
        ensures Note(c, !Parses(c.decode, c.id, expand, read)) in notes
      {
        NotedOnce(kept, expand, read, c);
      }
    }

    static lemma NotedOnce(kept: seq<TrpcConfig>, expand: Expansion, read: string, c: TrpcConfig)
      requires c in kept
      ensures Note(c, !Parses(c.decode, c.id, expand, read)) in NotesFor(kept, expand, read, true)
    {
      var i :| 0 <= i < |kept| && kept[i] == c;
      assert NotesFor(kept, expand, read, true)[i] == Note(c, !Parses(c.decode, c.id, expand, read));
    }

    /** doWatch and notify for each watched item. */
    method ReloadAll(kept: seq<TrpcConfig>, read: string, expand: Expansion)
      requires UniqueBy(kept, IdOf) && forall i | 0 <= i < |kept| :: kept[i].Valid()
      modifies this`notes, kept
      ensures forall i | 0 <= i < |kept| ::
        kept[i].Valid() && kept[i].value == AfterSet(kept[i].decode, kept[i].id, expand, old(kept[i].value), read)
      ensures notes == old(notes) + NotesFor(kept, expand, read, true)
    {
      ghost var all := NotesFor(kept, expand, read, true);
      for i := 0 to |kept|
        invariant forall k | 0 <= k < |kept| :: kept[k].Valid()
        invariant forall k | 0 <= k < i ::
          kept[k].value == AfterSet(kept[k].decode, kept[k].id, expand, old(kept[k].value), read)
        invariant forall k | i <= k < |kept| :: kept[k].value == old(kept[k].value)
        invariant notes == old(notes) + all[..i]
      {
        var err := kept[i].Set(read, expand);
        notes := notes + [Note(kept[i], err.Some?)];
      }
      assert all[..|kept|] == all;
    }

    method NotifyAll(dropped: seq<TrpcConfig>, ghost expand: Expansion, ghost read: string)
      modifies this`notes
      ensures notes == old(notes) + NotesFor(dropped, expand, read, false)
    {
      ghost var all := NotesFor(dropped, expand, read, false);
      for i := 0 to |dropped|
        invariant notes == old(notes) + all[..i]
      {
        notes := notes + [Note(dropped[i], false)];
      }
      assert all[..|dropped|] == all;
    }
  }
}

/**
  The same set under concurrency: getOrStore looks without the write lock and then again
  with it, so other callers and watches may come in between. Every interleaving of the
  critical sections is a run.
 */
module ConfigSharing {
  import opened Outcomes
  import opened Selection
  import opened ConfigLoader

  /** A config object: its identity among objects, and its id. */
  datatype Item = Item(obj: int, id: Id)

  function Key(x: Item): Id {
    x.id
  }

  predicate Watching(x: Item) {
    x.id.watch
  }

  /** Items of the set, and the callers of getOrStore that looked in vain and now wait for the write lock. */
  datatype State = State(items: seq<Item>, pending: map<nat, Item>)

  datatype Action =
    | Look(thread: nat, mine: Item)
    | Store(thread: nat)
    | Watch

  const Start := State([], map[])

  /** The item stored under an id, if any. */
  function Lookup(items: seq<Item>, id: Id): Option<Item> {
    if items == [] then None
    else if items[0].id == id then Some(items[0])
    else Lookup(items[1..], id)
  }

  predicate Enabled(s: State, a: Action) {
    match a
    case Look(t, _) => t !in s.pending
    case Store(t) => t in s.pending
    case Watch => true
  }

  /** One critical section: the new state, and the item a caller of getOrStore returns with. */
  function Step(s: State, a: Action): (State, Option<Item>)
    requires Enabled(s, a)
  {
    match a
    case Look(t, mine) =>
      var found := Lookup(s.items, mine.id);
      if found.Some? then (s, found) else (s.(pending := s.pending[t := mine]), None)
    case Store(t) =>
      var mine := s.pending[t];
      var s := s.(pending := s.pending - {t});
      var found := Lookup(s.items, mine.id);
      if found.Some? then (s, found) else (s.(items := s.items + [mine]), Some(mine))
    case Watch => (s.(items := Kept(s.items, Watching)), None)
  }

  lemma {:induction false} LookupFinds(items: seq<Item>, id: Id)
    ensures Lookup(items, id).Some? ==> Lookup(items, id).value in items && Lookup(items, id).value.id == id
    ensures Lookup(items, id).None? ==> forall x | x in items :: x.id != id
  {
    if items != [] {
      LookupFinds(items[1..], id);
    }
  }

  /** Every critical section keeps ids unique, and whoever returns does so with an item of the set. */
  lemma StepKeeps(s: State, a: Action)
    requires UniqueBy(s.items, Key) && Enabled(s, a)
    ensures var (s', r) := Step(s, a);
            && UniqueBy(s'.items, Key)
            && (r.Some? ==> r.value in s'.items)
            && (a.Look? && r.Some? ==> r.value.id == a.mine.id)
            && (a.Store? ==> r.Some? && r.value.id == s.pending[a.thread].id)
            && forall x | x in s.items && (a.Watch? ==> x.id.watch) :: x in s'.items
  {
    match a
    case Look(t, mine) => LookupFinds(s.items, mine.id);
    case Store(t) => LookupFinds(s.items, s.pending[t].id);
    case Watch =>
      KeptUnique(s.items, Watching, Key);
      forall x | x in s.items && x.id.watch
        ensures x in Kept(s.items, Watching)
      {
        KeptElements(s.items, Watching, x);
      }
  }

  /** The state after a sequence of critical sections; None if one of them is not enabled. */
  function Run(s: State, actions: seq<Action>): Option<State>
    decreases |actions|
  {
    if actions == [] then Some(s)
    else if !Enabled(s, actions[0]) then None
    else Run(Step(s, actions[0]).0, actions[1..])
  }

  lemma {:induction false} RunKeepsUnique(s: State, actions: seq<Action>)
    requires UniqueBy(s.items, Key) && Run(s, actions).Some?
    ensures UniqueBy(Run(s, actions).value.items, Key)
    decreases |actions|
  {
    if actions != [] {
      StepKeeps(s, actions[0]);
      RunKeepsUnique(Step(s, actions[0]).0, actions[1..]);
    }
  }

  /** An item stays through any run that does not drop it: no watch, or an item that is watched. */
  lemma {:induction false} StaysThrough(s: State, actions: seq<Action>, x: Item)
    requires UniqueBy(s.items, Key) && x in s.items && Run(s, actions).Some?
    requires x.id.watch || Watch !in actions
    ensures x in Run(s, actions).value.items
    decreases |actions|
  {
    if actions != [] {
      StepKeeps(s, actions[0]);
      StaysThrough(Step(s, actions[0]).0, actions[1..], x);
    }
  }

  // ------------------------------------------------------------------ every caller brings its own object

  /** No two calls of getOrStore bring the same object. */
  predicate OwnObjects(actions: seq<Action>) {
    forall i, j | 0 <= i < j < |actions| && actions[i].Look? && actions[j].Look? ::
      actions[i].mine.obj != actions[j].mine.obj
  }

  /** The item is on its way into the set: a caller waits with it, or will come with it. */
  predicate OnItsWay(s: State, x: Item, future: seq<Action>) {
    || (exists t :: t in s.pending && s.pending[t] == x)
    || (exists i :: 0 <= i < |future| && future[i].Look? && future[i].mine == x)
  }

  /** What is in the set is not on its way into it, and no two callers wait with one item. */
  ghost predicate Separate(s: State, future: seq<Action>) {
    && OwnObjects(future)
    && (forall x | x in s.items :: !OnItsWay(s, x, future))
    && (forall t, u | t in s.pending && u in s.pending && t != u :: s.pending[t] != s.pending[u])
    && (forall t | t in s.pending :: forall i | 0 <= i < |future| && future[i].Look? :: future[i].mine != s.pending[t])
  }

  /** Nothing sets out again: an item not on its way stays off it, whatever step is taken. */
  lemma NotOnItsWay(s: State, a: Action, rest: seq<Action>, x: Item)
    requires Enabled(s, a) && !OnItsWay(s, x, [a] + rest)
    ensures !OnItsWay(Step(s, a).0, x, rest)
  {
    var all := [a] + rest;
    assert all[0] == a && forall i | 0 <= i < |rest| :: rest[i] == all[i + 1];
  }

  lemma StepSeparates(s: State, a: Action, rest: seq<Action>)
    requires Separate(s, [a] + rest) && Enabled(s, a)
    ensures Separate(Step(s, a).0, rest)
  {
    var all := [a] + rest;
    var s' := Step(s, a).0;
    assert all[0] == a && forall i | 0 <= i < |rest| :: rest[i] == all[i + 1];
    forall x | x in s'.items
      ensures !OnItsWay(s', x, rest)
    {
      if x in s.items {
        NotOnItsWay(s, a, rest, x);
      } else if a.Watch? {
        KeptElements(s.items, Watching, x);
      } else {
        assert a.Store? && x == s.pending[a.thread];
      }
    }
  }

  lemma {:induction false} RunSeparates(s: State, actions: seq<Action>, future: seq<Action>)
    requires Separate(s, actions + future) && Run(s, actions).Some?
    ensures Separate(Run(s, actions).value, future)
    decreases |actions|
  {
    if actions == [] {
      assert actions + future == future;
    } else {
      assert actions + future == [actions[0]] + (actions[1..] + future);
      StepSeparates(s, actions[0], actions[1..] + future);
      RunSeparates(Step(s, actions[0]).0, actions[1..], future);
    }
  }

  /** An item that is neither in the set nor on its way into it stays out. */
  lemma {:induction false} StaysGone(s: State, actions: seq<Action>, future: seq<Action>, x: Item)
    requires Run(s, actions).Some? && x !in s.items && !OnItsWay(s, x, actions + future)
    ensures x !in Run(s, actions).value.items && !OnItsWay(Run(s, actions).value, x, future)
    decreases |actions|
  {
    if actions == [] {
      assert actions + future == future;
    } else {
      var rest := actions[1..] + future;
      assert actions + future == [actions[0]] + rest;
      NotOnItsWay(s, actions[0], rest, x);
      if actions[0].Watch? {
        KeptElements(s.items, Watching, x);
      }
      StaysGone(Step(s, actions[0]).0, actions[1..], future, x);
    }
  }

  /** A watch anywhere in a run drops an unwatched item for good. */
  lemma {:induction false} DroppedForGood(s: State, actions: seq<Action>, future: seq<Action>, x: Item)
    requires Run(s, actions).Some? && !OnItsWay(s, x, actions + future)
    requires !x.id.watch && Watch in actions
    ensures x !in Run(s, actions).value.items && !OnItsWay(Run(s, actions).value, x, future)
    decreases |actions|
  {
    var rest := actions[1..] + future;
    var next := Step(s, actions[0]).0;
    assert actions + future == [actions[0]] + rest;
    NotOnItsWay(s, actions[0], rest, x);
    if actions[0].Watch? {
      KeptElements(s.items, Watching, x);
      StaysGone(next, actions[1..], future, x);
    } else {
      DroppedForGood(next, actions[1..], future, x);
    }
  }

  /** What a caller returns with was in the set already, or is what it brought. */
  lemma ReturnsKnown(s: State, a: Action, x: Item)
    requires Enabled(s, a) && x !in s.items && !OnItsWay(s, x, [a])
    ensures Step(s, a).1 != Some(x)
  {
    match a
    case Look(_, mine) => LookupFinds(s.items, mine.id);
    case Store(t) => LookupFinds(s.items, s.pending[t].id);
    case Watch =>
  }

  /** A run cut at two of its critical sections. */
  ghost predicate TwoCalls(before: seq<Action>, first: Action, between: seq<Action>, second: Action) {
    && Run(Start, before).Some? && Enabled(Run(Start, before).value, first)
    && Run(Step(Run(Start, before).value, first).0, between).Some?
    && Enabled(Run(Step(Run(Start, before).value, first).0, between).value, second)
  }

  /** What the first and the second of the two return. */
  function Returns(before: seq<Action>, first: Action, between: seq<Action>, second: Action)
    : (Option<Item>, Option<Item>)
    requires TwoCalls(before, first, between, second)
  {
    var (s1, r1) := Step(Run(Start, before).value, first);
    (r1, Step(Run(s1, between).value, second).1)
  }

  /** Without a watch in between, or for a watched id, two callers share the object. */
  lemma SharedObject(before: seq<Action>, first: Action, between: seq<Action>, second: Action)
    requires TwoCalls(before, first, between, second)
    ensures var (r1, r2) := Returns(before, first, between, second);
            r1.Some? && r2.Some? && r1.value.id == r2.value.id && (r1.value.id.watch || Watch !in between) ==> r1 == r2
  {
    var s := Run(Start, before).value;
    RunKeepsUnique(Start, before);
    StepKeeps(s, first);
    var (s1, r1) := Step(s, first);
    var s2 := Run(s1, between).value;
    RunKeepsUnique(s1, between);
    StepKeeps(s2, second);
    var (s3, r2) := Step(s2, second);
    if r1.Some? && r2.Some? && r1.value.id == r2.value.id && (r1.value.id.watch || Watch !in between) {
      StaysThrough(s1, between, r1.value);
      assert r1.value in s3.items && r2.value in s3.items;
    }
  }

  /** With a watch in between, callers for an unwatched id never share it. */
  lemma ReplacedObject(before: seq<Action>, first: Action, between: seq<Action>, second: Action)
    requires TwoCalls(before, first, between, second)
    requires OwnObjects(before + [first] + between + [second])
    ensures var (r1, r2) := Returns(before, first, between, second);
            r1.Some? && !r1.value.id.watch && Watch in between ==> r1 != r2
  {
    var s := Run(Start, before).value;
    var (s1, r1) := Step(s, first);
    if r1.Some? && !r1.value.id.watch && Watch in between {
      var future := [first] + (between + [second]);
      assert before + [first] + between + [second] == before + future;
      RunSeparates(Start, before, future);
      StepSeparates(s, first, between + [second]);
      RunKeepsUnique(Start, before);
      StepKeeps(s, first);
      DroppedForGood(s1, between, [second], r1.value);
      ReturnsKnown(Run(s1, between).value, second, r1.value);
    }
  }

  /**
    When a config is a singleton. In every run from the empty set, however the critical
    sections interleave, two calls of getOrStore that return with one id return the same
    object exactly when the id is watched or no watch falls between their returns.
   */
  lemma OneObjectPerId(before: seq<Action>, first: Action, between: seq<Action>, second: Action)
    requires TwoCalls(before, first, between, second)
    requires OwnObjects(before + [first] + between + [second])
    ensures var (r1, r2) := Returns(before, first, between, second);
            r1.Some? && r2.Some? && r1.value.id == r2.value.id ==>
              (r1 == r2 <==> r1.value.id.watch || Watch !in between)
  {
    SharedObject(before, first, between, second);
    ReplacedObject(before, first, between, second);
  }

  /** The shortest such run: a watch, then a caller that looks and stores and owns a new object. */
  lemma WatchForgets(s: State, thread: nat, mine: Item)
    requires UniqueBy(s.items, Key) && thread !in s.pending && !mine.id.watch
    ensures var s1 := Step(s, Watch).0;
            var (s2, looked) := Step(s1, Look(thread, mine));
            && Lookup(s1.items, mine.id).None? && looked.None?
            && Enabled(s2, Store(thread)) && Step(s2, Store(thread)).1 == Some(mine)
  {
    var items := Kept(s.items, Watching);
    LookupFinds(items, mine.id);
    if Lookup(items, mine.id).Some? {
      KeptElements(s.items, Watching, Lookup(items, mine.id).value);
    }
  }
}
