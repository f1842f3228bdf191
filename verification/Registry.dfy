/** The idempotency registry (internal/web/policy/registry.go): which retry class a method's
    variant has, built by registrations and then sealed. A panic is a `false` result. */
module Registry {
  import opened Text
  import Ordering

  datatype Class = Safe | ReadOnly | ProbeThenCreate | IdempotentMutation | UnsafeMutation

  datatype Entry = Entry(class_: Class, variants: seq<string>, rationale: string)

  datatype Key = Key(method_: string, variant: string)

  type Entries = map<Key, Entry>

  datatype Error = AlreadySealed | Missing(methods: seq<string>) | NoRationale

  /** The keys one entry is stored under: no variants means the empty one. */
  function Expanded(e: Entry): seq<string> { if e.variants == [] then [""] else e.variants }

  /** How many of the keys are stored before one is found taken. */
  function Inserted(entries: Entries, m: string, e: Entry, vs: seq<string>): (n: nat)
    ensures n <= |vs|
  {
    if vs == [] then 0
    else
      var n := Inserted(entries, m, e, vs[..|vs| - 1]);
      if n < |vs| - 1 || Key(m, vs[|vs| - 1]) in entries || vs[|vs| - 1] in vs[..|vs| - 1] then n else |vs|
  }

  function With(entries: Entries, m: string, vs: seq<string>, e: Entry): Entries {
    entries + map v | v in vs :: Key(m, v) := e
  }

  predicate IsWildcard(e: Entry) { e.variants == [] }

  /** Lookup, as its map accesses define it. */
  function Found(entries: Entries, m: string, v: string): Option<Entry> {
    if Key(m, v) in entries then Some(entries[Key(m, v)])
    else if Key(m, "") in entries && IsWildcard(entries[Key(m, "")]) then Some(entries[Key(m, "")])
    else None
  }

  predicate Rationalized(e: Entry) { e.class_ == ProbeThenCreate ==> TrimSpace(e.rationale) != "" }

  ghost predicate Sound(entries: Entries) { forall k :: k in entries ==> Rationalized(entries[k]) }

  predicate Covers(entries: Entries, m: string) { exists k :: k in entries && k.method_ == m }

  class Registry {
    var entries: Entries
    var fallback: Class
    var fallbackSet: bool
    var isSealed: bool

    constructor ()
      ensures entries == map[] && fallback == Safe && !fallbackSet && !isSealed
    {
      entries, fallback, fallbackSet, isSealed := map[], Safe, false, false;
    }

    function Snapshot(): State
      reads this
    {
      State(entries, fallback, fallbackSet, isSealed)
    }

    method MustRegister(m: string, e: Entry) returns (ok: bool)
      modifies this
      ensures Snapshot() == Next(old(Snapshot()), Register(m, e)).0 && ok == Next(old(Snapshot()), Register(m, e)).1
    {
      if isSealed {
        return false;
      }
      var vs := e.variants;
      if |vs| == 0 {
        vs := [""];
      }
      hide With, Inserted;
      NoneInserted(entries, m, e);
      assert vs[..0] == [];
      for i := 0 to |vs|
        invariant entries == With(old(entries), m, vs[..i], e) && Inserted(old(entries), m, e, vs[..i]) == i
        invariant unchanged(`fallback) && unchanged(`fallbackSet) && unchanged(`isSealed)
      {
        InsertedNext(old(entries), m, e, vs, i);
        if Key(m, vs[i]) in entries {
          InsertedStops(old(entries), m, e, vs, i);
          return false;
        }
        entries := entries[Key(m, vs[i]) := e];
      }
      assert vs[..|vs|] == vs;
      return true;
    }

    method SetFallback(c: Class) returns (ok: bool)
      modifies this
      ensures Snapshot() == Next(old(Snapshot()), Fallback(c)).0 && ok == Next(old(Snapshot()), Fallback(c)).1
    {
      if isSealed {
        return false;
      }
      fallback := c;
      fallbackSet := true;
      return true;
    }

    /** `order` is the order in which the runtime happens to iterate the entries; the answer
        does not depend on it. */
    method Lookup(m: string, v: string, order: seq<Key>) returns (r: Option<Entry>)
      requires forall k :: k in order <==> k in entries
      ensures r == Found(entries, m, v)
    {
      if Key(m, v) in entries {
        return Some(entries[Key(m, v)]);
      }
      for i := 0 to |order|
        invariant forall j :: 0 <= j < i ==> order[j] == Key(m, "") ==> !IsWildcard(entries[order[j]])
      {
        var k := order[i];
        if k.method_ != m || k.variant != "" {
          continue;
        }
        assert k == Key(m, "");
        if |entries[k].variants| > 0 {
          continue;
        }
        return Some(entries[k]);
      }
      return None;
    }

    method Classify(m: string, v: string, order: seq<Key>) returns (c: Class)
      requires forall k :: k in order <==> k in entries
      ensures c == match Found(entries, m, v)
                   case Some(e) => e.class_
                   case None => fallback
    {
      var e := Lookup(m, v, order);
      if e.Some? {
        return e.value.class_;
      }
      return fallback;
    }

    method Validate(order: seq<Key>) returns (ok: bool)
      requires forall k :: k in order <==> k in entries
      ensures ok == Sound(entries)
    {
      ok := true;
      for i := 0 to |order|
        invariant ok == forall j :: 0 <= j < i ==> Rationalized(entries[order[j]])
      {
        var e := entries[order[i]];
        if e.class_ != ProbeThenCreate {
          continue;
        }
        if TrimSpace(e.rationale) == "" {
          ok := false;
        }
      }
      if ok {
        forall k | k in entries ensures Rationalized(entries[k]) {
          var j :| 0 <= j < |order| && order[j] == k;
        }
      }
    }

    /** NewRegistry on this registry. */
    method Seal(methods: seq<string>, order: seq<Key>) returns (err: Option<Error>)
      requires forall k :: k in order <==> k in entries
      modifies this
      ensures Snapshot() == Next(old(Snapshot()), SealFor(methods)).0
      ensures err.None? == Next(old(Snapshot()), SealFor(methods)).1
      ensures err == Some(AlreadySealed) <==> old(isSealed)
      ensures err.Some? && err.value.Missing? ==>
                && Ordering.StrictlySorted(LexLess, err.value.methods) && err.value.methods != []
                && forall m :: m in err.value.methods <==> m in methods && !Covers(entries, m)
      ensures err == Some(NoRationale) ==> (forall m :: m in methods ==> Covers(entries, m)) && !Sound(entries)
    {
      if isSealed {
        return Some(AlreadySealed);
      }
      if !fallbackSet {
        fallback := UnsafeMutation;
        fallbackSet := true;
      }
      var missing := MissingMethods(methods, order);
      if |missing| > 0 {
        assert missing[0] in missing;
        return Some(Missing(missing));
      }
      var ok := Validate(order);
      if !ok {
        return Some(NoRationale);
      }
      isSealed := true;
      return None;
    }

    method MissingMethods(methods: seq<string>, order: seq<Key>) returns (missing: seq<string>)
      requires forall k :: k in order <==> k in entries
      ensures Ordering.StrictlySorted(LexLess, missing)
      ensures forall m :: m in missing <==> m in methods && !Covers(entries, m)
    {
      var seen: set<string> := {};
      for i := 0 to |order|
        invariant forall m :: m in seen <==> exists j :: 0 <= j < i && order[j].method_ == m
      {
        seen := seen + {order[i].method_};
      }
      forall m ensures m in seen <==> Covers(entries, m) {
        if m in seen {
          var j :| 0 <= j < |order| && order[j].method_ == m;
          assert order[j] in entries;
        }
        if k :| k in entries && k.method_ == m {
          var j :| 0 <= j < |order| && order[j] == k;
        }
      }
      missing := [];
      for i := 0 to |methods|
        invariant forall m :: m in missing <==> m in methods[..i] && m !in seen
        invariant forall j, k :: 0 <= j < k < |missing| ==> missing[j] != missing[k]
      {
        assert methods[..i + 1] == methods[..i] + [methods[i]];
        if methods[i] !in seen && methods[i] !in missing {
          missing := missing + [methods[i]];
        }
      }
      assert methods[..|methods|] == methods;
      ghost var unsorted := missing;
      LexIsStrictTotal(Ordering.Elements(missing));
      missing := Ordering.Sort(missing, LexLess);
      assert forall m :: m in missing <==> m in Ordering.Elements(missing);
      assert forall m :: m in unsorted <==> m in Ordering.Elements(unsorted);
    }
  }

  lemma LexIsStrictTotal(s: set<string>)
    ensures Ordering.StrictTotalOn(LexLess, s)
  {
    forall x ensures !LexLess(x, x) { LexIrreflexive(x); }
    forall x, y | x != y ensures LexLess(x, y) || LexLess(y, x) { LexTotal(x, y); }
    forall x, y, z | LexLess(x, y) && LexLess(y, z) ensures LexLess(x, z) { LexTransitive(x, y, z); }
  }

  lemma WithNext(entries: Entries, m: string, p: seq<string>, x: string, e: Entry)
    ensures With(entries, m, p + [x], e) == With(entries, m, p, e)[Key(m, x) := e]
    ensures Key(m, x) in With(entries, m, p, e) <==> Key(m, x) in entries || x in p
  {
    assert forall v :: v in p + [x] <==> v in p || v == x;
    var a, b := With(entries, m, p + [x], e), With(entries, m, p, e)[Key(m, x) := e];
    assert forall k :: k in a <==> k in entries || (k.method_ == m && (k.variant in p || k.variant == x));
    assert forall k :: k in b <==> k in entries || (k.method_ == m && (k.variant in p || k.variant == x));
    assert forall k :: k in a ==> a[k] == b[k];
  }

  lemma NoneInserted(entries: Entries, m: string, e: Entry)
    ensures With(entries, m, [], e) == entries && Inserted(entries, m, e, []) == 0
  {
  }

  lemma InsertedNext(entries: Entries, m: string, e: Entry, vs: seq<string>, i: nat)
    requires i < |vs| && Inserted(entries, m, e, vs[..i]) == i
    ensures Inserted(entries, m, e, vs[..i + 1]) == if Key(m, vs[i]) in With(entries, m, vs[..i], e) then i else i + 1
    ensures With(entries, m, vs[..i], e)[Key(m, vs[i]) := e] == With(entries, m, vs[..i + 1], e)
  {
    WithNext(entries, m, vs[..i], vs[i], e);
    hide With;
    assert vs[..i + 1] == vs[..i] + [vs[i]];
    assert vs[..i + 1][..i] == vs[..i];
  }

  lemma {:induction false} InsertedStops(entries: Entries, m: string, e: Entry, vs: seq<string>, i: nat)
    requires i < |vs| && Inserted(entries, m, e, vs[..i + 1]) == i
    ensures Inserted(entries, m, e, vs) == i
    decreases |vs|
  {
    if i + 1 < |vs| {
      assert vs[..|vs| - 1][..i + 1] == vs[..i + 1];
      InsertedStops(entries, m, e, vs[..|vs| - 1], i);
    } else {
      assert vs[..i + 1] == vs;
    }
  }

  // ----- runs

  datatype State = State(entries: Entries, fallback: Class, fallbackSet: bool, isSealed: bool)

  datatype Op = Register(m: string, e: Entry) | Fallback(c: Class) | SealFor(methods: seq<string>)

  /** The state after an operation, and whether it succeeded. A registration that panics
      keeps the variants it had stored before the taken one. */
  ghost function Next(s: State, op: Op): (State, bool) {
    if s.isSealed then (s, false)
    else
      match op
      case Register(m, e) =>
        var n := Inserted(s.entries, m, e, Expanded(e));
        (s.(entries := With(s.entries, m, Expanded(e)[..n], e)), n == |Expanded(e)|)
      case Fallback(c) => (s.(fallback := c, fallbackSet := true), true)
      case SealFor(ms) =>
        var t := if s.fallbackSet then s else s.(fallback := UnsafeMutation, fallbackSet := true);
        if (forall m :: m in ms ==> Covers(s.entries, m)) && Sound(s.entries) then (t.(isSealed := true), true) else (t, false)
  }

  const UNBUILT := State(map[], Safe, false, false)

  ghost function After(h: seq<Op>): State {
    if h == [] then UNBUILT else Next(After(h[..|h| - 1]), h[|h| - 1]).0
  }

  /** One registration and the variants it stored: all of them unless it panicked. */
  datatype Reg = Reg(m: string, e: Entry, keys: seq<string>)

  ghost function Log(h: seq<Op>): seq<Reg> {
    if h == [] then []
    else
      var s, op := After(h[..|h| - 1]), h[|h| - 1];
      Log(h[..|h| - 1])
      + if op.Register? && !s.isSealed then [Reg(op.m, op.e, Expanded(op.e)[..Inserted(s.entries, op.m, op.e, Expanded(op.e))])] else []
  }

  ghost predicate Lists(log: seq<Reg>, i: int, m: string, v: string) {
    0 <= i < |log| && log[i].m == m && v in log[i].keys
  }

  ghost predicate Indexes(entries: Entries, log: seq<Reg>) {
    && (forall i, m, v :: Lists(log, i, m, v) ==> Key(m, v) in entries && entries[Key(m, v)] == log[i].e)
    && (forall k :: k in entries ==> exists i :: Lists(log, i, k.method_, k.variant))
    && (forall i, j, m, v :: Lists(log, i, m, v) && Lists(log, j, m, v) ==> i == j)
  }

  predicate Taken(entries: Entries, m: string, vs: seq<string>, i: nat)
    requires i < |vs|
  {
    Key(m, vs[i]) in entries || vs[i] in vs[..i]
  }

  /** A registration stores its variants up to the first that is already there, and panics
      exactly when there is one. */
  lemma {:induction false} InsertedIsFirstTaken(entries: Entries, m: string, e: Entry, vs: seq<string>)
    ensures var n := Inserted(entries, m, e, vs);
            && (forall i :: 0 <= i < n ==> !Taken(entries, m, vs, i))
            && (n < |vs| ==> Taken(entries, m, vs, n))
    decreases |vs|
  {
    if vs != [] {
      var p := vs[..|vs| - 1];
      InsertedIsFirstTaken(entries, m, e, p);
      forall i | 0 <= i < |p| ensures Taken(entries, m, p, i) <==> Taken(entries, m, vs, i) {
        assert p[..i] == vs[..i];
      }
    }
  }

  lemma FreshKeys(entries: Entries, m: string, e: Entry, vs: seq<string>)
    ensures forall v :: v in vs[..Inserted(entries, m, e, vs)] ==> Key(m, v) !in entries
  {
    InsertedIsFirstTaken(entries, m, e, vs);
    var n := Inserted(entries, m, e, vs);
    forall v | v in vs[..n] ensures Key(m, v) !in entries {
      var i :| 0 <= i < n && vs[..n][i] == v;
      assert !Taken(entries, m, vs, i);
    }
  }

  lemma IndexesAppend(entries: Entries, log: seq<Reg>, r: Reg)
    requires Indexes(entries, log)
    requires forall v :: v in r.keys ==> Key(r.m, v) !in entries
    ensures Indexes(With(entries, r.m, r.keys, r.e), log + [r])
  {
    var after, all := With(entries, r.m, r.keys, r.e), log + [r];
    assert forall i, m, v :: 0 <= i < |log| ==> (Lists(all, i, m, v) <==> Lists(log, i, m, v));
    assert forall m, v :: Lists(all, |log|, m, v) <==> m == r.m && v in r.keys;
    forall k | k in after ensures exists i :: Lists(all, i, k.method_, k.variant) {
      if k in entries {
        var i :| Lists(log, i, k.method_, k.variant);
        assert Lists(all, i, k.method_, k.variant);
      } else {
        assert Lists(all, |log|, k.method_, k.variant);
      }
    }
  }

  lemma {:induction false} LogIsIndexed(h: seq<Op>)
    ensures Indexes(After(h).entries, Log(h))
    decreases |h|
  {
    hide Indexes, With, Inserted;
    if h == [] {
      EmptyIndex();
    } else {
      var before, op := h[..|h| - 1], h[|h| - 1];
      LogIsIndexed(before);
      if op.Register? && !After(before).isSealed {
        var s, vs := After(before), Expanded(op.e);
        FreshKeys(s.entries, op.m, op.e, vs);
        IndexesAppend(s.entries, Log(before), Reg(op.m, op.e, vs[..Inserted(s.entries, op.m, op.e, vs)]));
      } else {
        assert Log(before) + [] == Log(before);
      }
    }
  }

  lemma EmptyIndex()
    ensures Indexes(map[], [])
  {
  }

  ghost predicate ListsWildcard(log: seq<Reg>, i: int, m: string) {
    Lists(log, i, m, "") && IsWildcard(log[i].e)
  }

  /** The entry that lists the variant, else the method's wildcard, else none. */
  ghost predicate Answers(log: seq<Reg>, m: string, v: string, r: Option<Entry>) {
    if exists i :: Lists(log, i, m, v) then exists i :: Lists(log, i, m, v) && r == Some(log[i].e)
    else if exists i :: ListsWildcard(log, i, m) then exists i :: ListsWildcard(log, i, m) && r == Some(log[i].e)
    else r == None
  }

  /** Lookup refines the registration log over every run, panicking registrations included;
      and at most one registration lists any variant, so the answer is determined. */
  lemma LookupRefinesLog(h: seq<Op>, m: string, v: string)
    ensures Answers(Log(h), m, v, Found(After(h).entries, m, v))
    ensures forall i, j, w :: Lists(Log(h), i, m, w) && Lists(Log(h), j, m, w) ==> i == j
  {
    LogIsIndexed(h);
    hide After, Log;
    FoundAnswers(After(h).entries, Log(h), m, v);
  }

  lemma FoundAnswers(entries: Entries, log: seq<Reg>, m: string, v: string)
    requires Indexes(entries, log)
    ensures Answers(log, m, v, Found(entries, m, v))
  {
    assert forall i :: ListsWildcard(log, i, m) ==> Key(m, "") in entries && entries[Key(m, "")] == log[i].e;
    if Key(m, v) in entries {
      var i :| Lists(log, i, m, v);
    } else if Key(m, "") in entries && IsWildcard(entries[Key(m, "")]) {
      var i :| Lists(log, i, m, "");
      assert ListsWildcard(log, i, m);
      assert forall j :: ListsWildcard(log, j, m) ==> j == i;
    }
  }

  /** Nothing changes a sealed registry. */
  lemma {:induction false} SealIsFinal(h: seq<Op>, more: seq<Op>)
    requires After(h).isSealed
    ensures After(h + more) == After(h)
    decreases |more|
  {
    if more == [] {
      assert h + more == h;
    } else {
      SealIsFinal(h, more[..|more| - 1]);
      assert (h + more)[..|h + more| - 1] == h + more[..|more| - 1];
    }
  }

  /** The class the last effective SetFallback chose, the unsafe one if none did. */
  ghost function Chosen(h: seq<Op>): Class {
    if h == [] then UnsafeMutation
    else
      var op := h[|h| - 1];
      if op.Fallback? && !After(h[..|h| - 1]).isSealed then op.c else Chosen(h[..|h| - 1])
  }

  lemma {:induction false} FallbackIsChosen(h: seq<Op>)
    ensures var s := After(h);
            if s.fallbackSet then s.fallback == Chosen(h) else Chosen(h) == UnsafeMutation
    ensures After(h).isSealed ==> After(h).fallbackSet
    decreases |h|
  {
    if h != [] {
      FallbackIsChosen(h[..|h| - 1]);
      hide Covers, Sound, With, Inserted;
    }
  }

  /** Operation `n` of the run is the NewRegistry call that sealed the registry. */
  ghost predicate SealedBy(h: seq<Op>, n: int, ms: seq<string>) {
    0 <= n < |h| && h[n] == SealFor(ms) && !After(h[..n]).isSealed && After(h[..n + 1]).isSealed
  }

  lemma StaysSealed(h: seq<Op>, m: nat, n: nat)
    requires m <= n <= |h| && After(h[..m]).isSealed
    ensures After(h[..n]).isSealed
  {
    SealIsFinal(h[..m], h[m..n]);
    assert h[..m] + h[m..n] == h[..n];
  }

  /** A sealed registry was sealed by a NewRegistry call and covers every method the sealing
      call was given; it has no probe-then-create entry without a rationale, and
      classifies what it does not know by the fallback chosen before the seal, an unsafe
      mutation by default. */
  lemma {:induction false} SealedIsComplete(h: seq<Op>)
    requires After(h).isSealed
    ensures Sound(After(h).entries) && After(h).fallback == Chosen(h)
    ensures exists n, ms :: SealedBy(h, n, ms)
    ensures forall n, ms :: SealedBy(h, n, ms) ==> forall m :: m in ms ==> Covers(After(h).entries, m)
    decreases |h|
  {
    FallbackIsChosen(h);
    hide Covers, Sound, With, Inserted;
    var n := |h| - 1;
    assert h[..n + 1] == h;
    if After(h[..n]).isSealed {
      SealedIsComplete(h[..n]);
      forall k, ms | SealedBy(h, k, ms) ensures SealedBy(h[..n], k, ms) {
        assert k < n;
        assert h[..n][..k] == h[..k] && h[..n][..k + 1] == h[..k + 1];
      }
      var k, ms :| SealedBy(h[..n], k, ms);
      assert h[..n][..k] == h[..k] && h[..n][..k + 1] == h[..k + 1];
      assert SealedBy(h, k, ms);
    } else {
      assert h[n].SealFor? && SealedBy(h, n, h[n].methods);
      forall k, ms | SealedBy(h, k, ms) ensures k == n {
        if k < n {
          StaysSealed(h, k + 1, n);
        }
      }
    }
  }

  // ----- what the operations of a run say

  /** Operation `n` of the run registers `e` for `m` and does not panic. */
  ghost predicate Registers(h: seq<Op>, n: int, m: string, e: Entry) {
    0 <= n < |h| && h[n] == Register(m, e) && Next(After(h[..n]), h[n]).1
  }

  /** A registration goes through exactly on an unsealed registry that has none of its
      variants, no variant being repeated; without variants it needs the empty one free. */
  lemma RegisterIff(s: State, m: string, e: Entry)
    ensures Next(s, Register(m, e)).1 <==>
              && !s.isSealed && (e.variants == [] ==> Key(m, "") !in s.entries)
              && (forall i :: 0 <= i < |e.variants| ==> Key(m, e.variants[i]) !in s.entries)
              && (forall i, j :: 0 <= i < j < |e.variants| ==> e.variants[i] != e.variants[j])
    ensures Next(s, Register(m, e)).1 ==>
              var after := Next(s, Register(m, e)).0.entries;
              && (e.variants == [] ==> Key(m, "") in after && after[Key(m, "")] == e)
              && (forall v :: v in e.variants ==> Key(m, v) in after && after[Key(m, v)] == e)
  {
    var vs := Expanded(e);
    InsertedAllIff(s.entries, m, e, vs);
    hide Inserted;
    assert vs[..|vs|] == vs;
    if e.variants == [] {
      assert vs == [""] && vs[0] == "";
    }
  }

  lemma InsertedAllIff(entries: Entries, m: string, e: Entry, vs: seq<string>)
    ensures Inserted(entries, m, e, vs) == |vs| <==>
              && (forall i :: 0 <= i < |vs| ==> Key(m, vs[i]) !in entries)
              && (forall i, j :: 0 <= i < j < |vs| ==> vs[i] != vs[j])
  {
    InsertedIsFirstTaken(entries, m, e, vs);
    var n := Inserted(entries, m, e, vs);
    hide Inserted;
    if n == |vs| {
      forall i | 0 <= i < |vs| ensures Key(m, vs[i]) !in entries {
        assert !Taken(entries, m, vs, i);
      }
      forall i, j | 0 <= i < j < |vs| ensures vs[i] != vs[j] {
        assert !Taken(entries, m, vs, j) && vs[..j][i] == vs[i];
      }
    } else if Key(m, vs[n]) !in entries {
      var i :| 0 <= i < n && vs[..n][i] == vs[n];
      assert vs[i] == vs[n];
    }
  }

  /** A registration that panics has stored its variants ahead of the first that is taken, by
      an earlier registration or by itself, and nothing else. */
  lemma PanicKeepsEarlier(s: State, m: string, e: Entry) returns (n: nat)
    requires !s.isSealed && !Next(s, Register(m, e)).1
    ensures var after := Next(s, Register(m, e)).0.entries;
            && n <= |e.variants|
            && (e.variants == [] ==> Key(m, "") in s.entries)
            && (e.variants != [] ==> n < |e.variants| && (Key(m, e.variants[n]) in s.entries || e.variants[n] in e.variants[..n]))
            && (forall i :: 0 <= i < n ==> Key(m, e.variants[i]) !in s.entries)
            && (forall k :: k in after <==> k in s.entries || (k.method_ == m && k.variant in e.variants[..n]))
            && (forall k :: k in after ==> after[k] == if k in s.entries then s.entries[k] else e)
  {
    var vs := Expanded(e);
    InsertedIsFirstTaken(s.entries, m, e, vs);
    FreshKeys(s.entries, m, e, vs);
    n := Inserted(s.entries, m, e, vs);
    hide Inserted;
    forall i | 0 <= i < n ensures Key(m, vs[i]) !in s.entries {
      assert !Taken(s.entries, m, vs, i);
    }
    assert e.variants == [] ==> n == 0;
  }

  lemma NextExtends(s: State, op: Op, k: Key)
    ensures k in s.entries ==> k in Next(s, op).0.entries && Next(s, op).0.entries[k] == s.entries[k]
    ensures k in Next(s, op).0.entries && k !in s.entries ==>
              && op.Register? && op.m == k.method_ && Next(s, op).0.entries[k] == op.e
              && (k.variant in op.e.variants || (op.e.variants == [] && k.variant == ""))
  {
    hide Inserted, Sound, Covers;
    if op.Register? {
      FreshKeys(s.entries, op.m, op.e, Expanded(op.e));
    }
  }

  lemma {:induction false} HistoryExtends(h: seq<Op>, n: nat, k: Key)
    requires n <= |h| && k in After(h[..n]).entries
    ensures k in After(h).entries && After(h).entries[k] == After(h[..n]).entries[k]
    decreases |h|
  {
    if n == |h| {
      assert h[..n] == h;
    } else {
      var before := h[..|h| - 1];
      assert before[..n] == h[..n];
      HistoryExtends(before, n, k);
      NextExtends(After(before), h[|h| - 1], k);
      hide Next;
    }
  }

  lemma {:induction false} StoredWasRegistered(h: seq<Op>, k: Key) returns (i: nat)
    requires k in After(h).entries
    ensures i < |h| && h[i].Register? && h[i].m == k.method_ && After(h).entries[k] == h[i].e
    ensures k.variant in h[i].e.variants || (h[i].e.variants == [] && k.variant == "")
    ensures !After(h[..i]).isSealed
    decreases |h|
  {
    assert h != [];
    i := |h| - 1;
    var before := h[..i];
    NextExtends(After(before), h[i], k);
    if k in After(before).entries {
      i := StoredWasRegistered(before, k);
      assert before[..i] == h[..i];
    } else {
      assert !After(before).isSealed;
    }
  }

  /** From the operations alone: a registration that went through answers for each variant
      it lists; one without variants answers for every variant that no registration of the
      method lists. */
  lemma RegisteredIsFound(h: seq<Op>, n: int, m: string, e: Entry, v: string)
    requires Registers(h, n, m, e)
    requires v in e.variants || (e.variants == [] && forall k :: 0 <= k < |h| && h[k].Register? && h[k].m == m ==> v !in h[k].e.variants)
    ensures Found(After(h).entries, m, v) == Some(e)
  {
    RegisterIff(After(h[..n]), m, e);
    assert h[..n + 1][..n] == h[..n];
    assert After(h[..n + 1]) == Next(After(h[..n]), h[n]).0;
    hide After, Next;
    if v in e.variants {
      HistoryExtends(h, n + 1, Key(m, v));
    } else {
      HistoryExtends(h, n + 1, Key(m, ""));
      if Key(m, v) in After(h).entries {
        var k := StoredWasRegistered(h, Key(m, v));
      }
    }
  }

  /** Conversely an answer is the entry of a registration of the method, one that lists the
      variant or one without variants. */
  lemma FoundWasRegistered(h: seq<Op>, m: string, v: string) returns (i: nat)
    requires Found(After(h).entries, m, v).Some?
    ensures i < |h| && h[i].Register? && h[i].m == m && Found(After(h).entries, m, v) == Some(h[i].e)
    ensures v in h[i].e.variants || h[i].e.variants == []
  {
    hide After;
    i := StoredWasRegistered(h, if Key(m, v) in After(h).entries then Key(m, v) else Key(m, ""));
  }

  /** A method has an entry exactly when it was registered ahead of the seal, even by a call
      that panicked. */
  lemma HasEntryIff(h: seq<Op>, m: string)
    ensures (exists k :: k in After(h).entries && k.method_ == m)
       <==> exists i :: 0 <= i < |h| && h[i].Register? && h[i].m == m && !After(h[..i]).isSealed
  {
    hide After;
    if k :| k in After(h).entries && k.method_ == m {
      var i := StoredWasRegistered(h, k);
    }
    if i :| 0 <= i < |h| && h[i].Register? && h[i].m == m && !After(h[..i]).isSealed {
      var k := RegisteredHasEntry(h, i);
    }
  }

  lemma RegisteredHasEntry(h: seq<Op>, i: nat) returns (k: Key)
    requires i < |h| && h[i].Register? && !After(h[..i]).isSealed
    ensures k in After(h).entries && k.method_ == h[i].m
  {
    assert h[..i + 1][..i] == h[..i];
    assert After(h[..i + 1]) == Next(After(h[..i]), h[i]).0;
    hide After;
    k := Key(h[i].m, Expanded(h[i].e)[0]);
    FirstIsStored(After(h[..i]), h[i].m, h[i].e);
    hide Next;
    HistoryExtends(h, i + 1, k);
  }

  lemma FirstIsStored(s: State, m: string, e: Entry)
    requires !s.isSealed
    ensures Key(m, Expanded(e)[0]) in Next(s, Register(m, e)).0.entries
  {
    var vs := Expanded(e);
    InsertedIsFirstTaken(s.entries, m, e, vs);
    hide Inserted;
    if Inserted(s.entries, m, e, vs) > 0 {
      assert vs[..Inserted(s.entries, m, e, vs)][0] == vs[0];
    }
  }

  /** NewRegistry seals an unsealed registry exactly when each of the methods has an entry
      and each probe-then-create entry a rationale that is not all white space; either way
      the entries stay, and without a chosen fallback the unsafe one is set. */
  lemma SealIff(s: State, ms: seq<string>)
    requires !s.isSealed
    ensures Next(s, SealFor(ms)).1 <==>
              && (forall m :: m in ms ==> exists k :: k in s.entries && k.method_ == m)
              && (forall k :: k in s.entries && s.entries[k].class_ == ProbeThenCreate ==> HasText(s.entries[k].rationale))
    ensures var t := Next(s, SealFor(ms)).0;
            && t.entries == s.entries && t.isSealed == Next(s, SealFor(ms)).1
            && t.fallbackSet && t.fallback == if s.fallbackSet then s.fallback else UnsafeMutation
  {
    forall e: string ensures TrimSpace(e) != "" <==> HasText(e) {
      TrimmedAwayIff(e);
    }
    assert (forall m :: m in ms ==> Covers(s.entries, m)) <==> forall m :: m in ms ==> exists k :: k in s.entries && k.method_ == m;
    hide TrimSpace, HasText;
  }

  predicate HasText(t: string) { exists j :: 0 <= j < |t| && !IsSpace(t[j]) }

  /** What a seal means for the operations of the run: every method the sealing call was
      given was registered ahead of it, and every registration of a probe-then-create entry
      that went through has a rationale with something in it. */
  lemma SealedMeans(h: seq<Op>, n: int, ms: seq<string>)
    requires SealedBy(h, n, ms)
    ensures forall m :: m in ms ==> exists i :: 0 <= i < n && h[i].Register? && h[i].m == m
    ensures forall i, m, e :: Registers(h, i, m, e) && e.class_ == ProbeThenCreate ==> HasText(e.rationale)
  {
    StaysSealed(h, n + 1, |h|);
    assert h[..|h|] == h;
    SealedIsComplete(h);
    assert h[..n + 1][..n] == h[..n];
    SealIff(After(h[..n]), ms);
    hide After, TrimSpace;
    forall m | m in ms ensures exists i :: 0 <= i < n && h[i].Register? && h[i].m == m {
      HasEntryIff(h[..n], m);
      var i :| 0 <= i < |h[..n]| && h[..n][i].Register? && h[..n][i].m == m;
      assert h[i].Register? && h[i].m == m;
    }
    forall i, m, e | Registers(h, i, m, e) && e.class_ == ProbeThenCreate ensures HasText(e.rationale) {
      var k := RegisteredIsStored(h, i, m, e);
      assert Rationalized(After(h).entries[k]);
      TrimmedAwayIff(e.rationale);
    }
  }

  lemma RegisteredIsStored(h: seq<Op>, n: int, m: string, e: Entry) returns (k: Key)
    requires Registers(h, n, m, e)
    ensures k in After(h).entries && After(h).entries[k] == e
  {
    RegisterIff(After(h[..n]), m, e);
    assert h[..n + 1][..n] == h[..n];
    assert After(h[..n + 1]) == Next(After(h[..n]), h[n]).0;
    hide After, Next;
    k := Key(m, if e.variants == [] then "" else e.variants[0]);
    HistoryExtends(h, n + 1, k);
  }
}
