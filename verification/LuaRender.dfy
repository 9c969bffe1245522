/** Rendering the recognised contracts: grouped by module, sorted by section and key, concatenated. The
    sort promises nothing about ties, so what the output depends on is what validation rejects. */
module LuaRender {
  import opened Collections

  datatype Section = Alias | Type | Catalog | Namespace | Callable | Binding

  datatype Contract = Contract(module_: string, section: Section, key: string, payload: string)

  function Rank(s: Section): nat {
    match s
    case Alias => 0
    case Type => 1
    case Catalog => 2
    case Namespace => 3
    case Callable => 4
    case Binding => 5
  }

  const MODULES: seq<string> := ["mux", "btech"]
  const HEADER: string :=
    "---@meta _\n\n---Generated by `lua-type-generator` from LuaLS contracts in native C.\n" +
    "---Do not edit; run `just update-lua-types`."

  // ---- The order ---------------------------------------------------------------------------

  predicate TextBefore(a: string, b: string) {
    b != [] && (a == [] || a[0] < b[0] || (a[0] == b[0] && TextBefore(a[1..], b[1..])))
  }

  lemma {:induction false} TextOrder(a: string, b: string, c: string)
    ensures TextBefore(a, b) ==> !TextBefore(b, a)
    ensures TextBefore(a, b) || TextBefore(b, a) || a == b
    ensures TextBefore(a, b) && TextBefore(b, c) ==> TextBefore(a, c)
  {
    if a != [] && b != [] {
      TextOrder(a[1..], b[1..], if c == [] then [] else c[1..]);
      assert a == [a[0]] + a[1..] && b == [b[0]] + b[1..];
    }
  }

  /** The comparison of the sort. */
  predicate Before(c: Contract, d: Contract) {
    Rank(c.section) < Rank(d.section) || (c.section == d.section && TextBefore(c.key, d.key))
  }

  lemma BeforeIsAnOrder(c: Contract, d: Contract, e: Contract)
    ensures Before(c, d) ==> !Before(d, c)
    ensures !Before(c, d) && !Before(d, c) ==> c.section == d.section && c.key == d.key
    ensures !Before(d, c) && !Before(e, d) ==> !Before(e, c)
  {
    TextOrder(c.key, d.key, e.key);
    TextOrder(d.key, c.key, e.key);
    TextOrder(e.key, c.key, d.key);
    TextOrder(d.key, e.key, c.key);
  }

  /** The first k characters agree, and there a ends or has the smaller one. */
  predicate PartAt(a: string, b: string, k: nat) {
    k <= |a| && k < |b| && a[..k] == b[..k] && (k == |a| || a[k] < b[k])
  }

  lemma {:induction false} TextBeforeExactly(a: string, b: string)
    ensures TextBefore(a, b) <==> exists k: nat :: PartAt(a, b, k)
  {
    forall k: nat | PartAt(a, b, k) && k > 0 ensures a[0] == b[0] { assert a[..k][0] == b[..k][0]; }
    if b != [] && a != [] && a[0] == b[0] {
      TextBeforeExactly(a[1..], b[1..]);
      if TextBefore(a[1..], b[1..]) {
        var k: nat :| PartAt(a[1..], b[1..], k);
        assert a[..k + 1] == [a[0]] + a[1..][..k] && b[..k + 1] == [b[0]] + b[1..][..k];
        assert PartAt(a, b, k + 1);
      }
      if k: nat :| PartAt(a, b, k) {
        assert a[1..][..k - 1] == a[..k][1..] && b[1..][..k - 1] == b[..k][1..];
        assert PartAt(a[1..], b[1..], k - 1);
      }
    } else if b != [] {
      assert PartAt(a, b, 0) <==> a == [] || a[0] < b[0];
    }
  }

  /** The sections from first to last. */
  const SECTIONS := [Alias, Type, Catalog, Namespace, Callable, Binding]

  /** Of two contracts the first may stand before the second: its section is an earlier one, or the
      same with a key that is the same or parts from the other's below it. */
  ghost predicate MayPrecede(c: Contract, d: Contract) {
    exists a, b :: 0 <= a <= b < |SECTIONS| && SECTIONS[a] == c.section && SECTIONS[b] == d.section
      && (a == b ==> c.key == d.key || exists k: nat :: PartAt(c.key, d.key, k))
  }

  // ---- Sorting -----------------------------------------------------------------------------

  ghost predicate IsSorted(s: seq<Contract>) {
    forall i, j :: 0 <= i < j < |s| ==> !Before(s[j], s[i])
  }

  /** Sorted contracts stand section by section, and by the characters of their keys in a section. */
  lemma SortedExactly(s: seq<Contract>)
    ensures IsSorted(s) <==> forall i, j :: 0 <= i < j < |s| ==> MayPrecede(s[i], s[j])
  {
    forall i, j | 0 <= i < j < |s| ensures MayPrecede(s[i], s[j]) <==> !Before(s[j], s[i]) {
      PrecedesExactly(s[i], s[j]);
    }
  }

  lemma PrecedesExactly(c: Contract, d: Contract)
    ensures MayPrecede(c, d) <==> !Before(d, c)
  {
    TextOrder(c.key, d.key, c.key);
    TextBeforeExactly(c.key, d.key);
    assert SECTIONS[Rank(c.section)] == c.section && SECTIONS[Rank(d.section)] == d.section;
    forall a | 0 <= a < |SECTIONS| ensures Rank(SECTIONS[a]) == a {}
  }

  /** All that a sort promises. */
  ghost predicate IsSortOf(t: seq<Contract>, s: seq<Contract>) {
    IsSorted(t) && multiset(t) == multiset(s)
  }

  lemma InsertKeepsSorted(t: seq<Contract>, k: nat, c: Contract)
    requires IsSorted(t) && k <= |t| && (k > 0 ==> !Before(c, t[k - 1]))
    requires forall j :: k <= j < |t| ==> Before(c, t[j])
    ensures IsSorted(t[..k] + [c] + t[k..])
  {
    var u := t[..k] + [c] + t[k..];
    forall i, j | 0 <= i < j < |u| ensures !Before(u[j], u[i]) {
      if j == k {
        BeforeIsAnOrder(t[i], t[k - 1], c);
      } else if i == k {
        BeforeIsAnOrder(c, t[j - 1], c);
      }
    }
  }

  /** Where a contract goes among sorted ones: behind everything it need not precede. */
  function Place(t: seq<Contract>, c: Contract): (k: nat)
    ensures k <= |t| && (k > 0 ==> !Before(c, t[k - 1])) && forall j :: k <= j < |t| ==> Before(c, t[j])
  {
    if t == [] then 0
    else if Before(c, t[|t| - 1]) then Place(t[..|t| - 1], c)
    else |t|
  }

  /** Some sort. */
  function Sorted(s: seq<Contract>): seq<Contract> {
    if s == [] then []
    else
      var init, last := Sorted(s[..|s| - 1]), s[|s| - 1];
      var k := Place(init, last);
      init[..k] + [last] + init[k..]
  }

  lemma {:induction false} SortedIsSort(s: seq<Contract>)
    ensures IsSortOf(Sorted(s), s)
  {
    if s != [] {
      var init, last := Sorted(s[..|s| - 1]), s[|s| - 1];
      var k := Place(init, last);
      SortedIsSort(s[..|s| - 1]);
      InsertKeepsSorted(init, k, last);
      InsertionAddsOne(init, k, last);
      RemovalTakesOne(s, |s| - 1);
      assert s[..|s| - 1] + s[|s|..] == s[..|s| - 1];
      hide IsSorted, Before, Place;
    }
  }

  /** No key has two definitions. */
  ghost predicate Unambiguous(s: seq<Contract>) {
    forall c, d :: c in s && d in s && c.key == d.key ==> c == d
  }

  lemma FirstsAgree(s: seq<Contract>, t: seq<Contract>)
    requires IsSorted(s) && IsSorted(t) && multiset(s) == multiset(t) && Unambiguous(s) && s != [] && t != []
    ensures s[0] == t[0]
  {
    assert s[0] in multiset(t) && t[0] in multiset(s);
    var i :| 0 <= i < |t| && t[i] == s[0];
    var j :| 0 <= j < |s| && s[j] == t[0];
    BeforeIsAnOrder(s[0], t[0], s[0]);
    BeforeIsAnOrder(s[0], s[0], s[0]);
    BeforeIsAnOrder(t[0], t[0], t[0]);
  }

  /** Where no key is ambiguous, every sort of every ordering gives the same sequence. */
  lemma {:induction false} SortIsUnique(s: seq<Contract>, t: seq<Contract>)
    requires IsSorted(s) && IsSorted(t) && multiset(s) == multiset(t) && Unambiguous(s)
    ensures s == t
    decreases |s|
  {
    hide Before;
    if t == [] {
      assert |multiset(s)| == |s| == 0;
    } else {
      var j := FirstElsewhere(s, t);
      FirstsAgree(s, t);
      assert s[..0] + s[1..] == s[1..];
      SortIsUnique(s[1..], t[1..]);
    }
  }

  // ---- The rendering -----------------------------------------------------------------------

  function OfModule(contracts: seq<Contract>, module_: string): (s: seq<Contract>)
    ensures forall c :: c in s ==> c in contracts && c.module_ == module_
  {
    if contracts == [] then []
    else (if contracts[0].module_ == module_ then [contracts[0]] else []) + OfModule(contracts[1..], module_)
  }

  function Payloads(sorted: seq<Contract>): string {
    if sorted == [] then "" else Payloads(sorted[..|sorted| - 1]) + "\n\n" + sorted[|sorted| - 1].payload
  }

  function Text(header: string, sorted: seq<Contract>, module_: string): string {
    header + Payloads(sorted) + "\n\nreturn " + module_ + "\n"
  }

  /** Some outcome of the renderer for one module. */
  ghost predicate Renders(header: string, contracts: seq<Contract>, module_: string, text: string) {
    exists sorted :: IsSortOf(sorted, OfModule(contracts, module_)) && text == Text(header, sorted, module_)
  }

  /** The body of the loop over the two modules. */
  method RenderModule(header: string, contracts: seq<Contract>, module_: string) returns (output: string)
    ensures exists sorted :: IsSortOf(sorted, contracts) && output == Text(header, sorted, module_)
  {
    var sorted := Sorted(contracts);
    SortedIsSort(contracts);
    hide IsSortOf, Sorted;
    output := header;
    for k := 0 to |sorted|
      invariant output == header + Payloads(sorted[..k])
    {
      assert sorted[..k + 1][..k] == sorted[..k];
      output := output + "\n\n";
      output := output + sorted[k].payload;
    }
    assert sorted[..|sorted|] == sorted;
    output := output + "\n\nreturn ";
    output := output + module_;
    output := output + "\n";
    assert output == Text(header, sorted, module_);
  }

  function Group(byModule: map<string, seq<Contract>>, module_: string): seq<Contract> {
    if module_ in byModule then byModule[module_] else []
  }

  ghost predicate Groups(byModule: map<string, seq<Contract>>, contracts: seq<Contract>) {
    forall m: string :: Group(byModule, m) == OfModule(contracts, m)
  }

  lemma GroupsGrow(byModule: map<string, seq<Contract>>, contracts: seq<Contract>, c: Contract)
    requires Groups(byModule, contracts)
    ensures Groups(byModule[c.module_ := Group(byModule, c.module_) + [c]], contracts + [c])
  {
    var after := byModule[c.module_ := Group(byModule, c.module_) + [c]];
    forall m: string ensures Group(after, m) == OfModule(contracts + [c], m) {
      OfModuleAppends(contracts, c, m);
      assert Group(byModule, m) == OfModule(contracts, m);
      hide OfModule;
      assert Group(byModule, m) + [] == Group(byModule, m);
    }
  }

  /** The loop that groups the contracts. */
  method GroupByModule(contracts: seq<Contract>) returns (byModule: map<string, seq<Contract>>)
    ensures Groups(byModule, contracts)
  {
    byModule := map[];
    for n := 0 to |contracts|
      invariant Groups(byModule, contracts[..n])
    {
      var c := contracts[n];
      GroupsGrow(byModule, contracts[..n], c);
      byModule := byModule[c.module_ := Group(byModule, c.module_) + [c]];
      assert contracts[..n + 1] == contracts[..n] + [c];
    }
    assert contracts[..|contracts|] == contracts;
  }

  /** render_modules, under any header and over any modules. */
  method RenderEach(header: string, modules: seq<string>, contracts: seq<Contract>)
    returns (outputs: map<string, string>)
    ensures forall m :: m in outputs <==> m in modules
    ensures forall m :: m in outputs ==> Renders(header, contracts, m, outputs[m])
  {
    var byModule := GroupByModule(contracts);
    outputs := map[];
    for n := 0 to |modules|
      invariant forall m :: m in outputs <==> m in modules[..n]
      invariant forall m :: m in outputs ==> Renders(header, contracts, m, outputs[m])
    {
      var m := modules[n];
      var output := RenderModule(header, Group(byModule, m), m);
      assert Group(byModule, m) == OfModule(contracts, m);
      outputs := outputs[m := output];
    }
  }

  /** render_modules */
  method RenderModules(contracts: seq<Contract>) returns (outputs: map<string, string>)
    ensures forall m :: m in outputs <==> m in MODULES
    ensures forall m :: m in outputs ==> Renders(HEADER, contracts, m, outputs[m])
  {
    outputs := RenderEach(HEADER, MODULES, contracts);
  }

  lemma {:induction false} OfModuleAppends(contracts: seq<Contract>, c: Contract, module_: string)
    ensures OfModule(contracts + [c], module_)
            == OfModule(contracts, module_) + if c.module_ == module_ then [c] else []
  {
    if contracts == [] {
      assert contracts + [c] == [c] && [c][1..] == [];
    } else {
      assert (contracts + [c])[1..] == contracts[1..] + [c];
      OfModuleAppends(contracts[1..], c, module_);
    }
  }

  lemma {:induction false} OfModuleCounts(contracts: seq<Contract>, module_: string, c: Contract)
    ensures multiset(OfModule(contracts, module_))[c] == if c.module_ == module_ then multiset(contracts)[c] else 0
  {
    if contracts != [] {
      assert contracts == [contracts[0]] + contracts[1..];
      OfModuleCounts(contracts[1..], module_, c);
    }
  }

  // ---- Validation and determinism ----------------------------------------------------------

  ghost predicate KeysAreDistinct(contracts: seq<Contract>) {
    forall i, j :: 0 <= i < j < |contracts| ==>
      contracts[i].module_ != contracts[j].module_ || contracts[i].key != contracts[j].key
  }

  ghost function KeysOf(contracts: seq<Contract>): set<(string, string)> {
    set c | c in contracts :: (c.module_, c.key)
  }

  lemma KeysGrow(contracts: seq<Contract>, n: nat)
    requires n < |contracts|
    ensures var key := (contracts[n].module_, contracts[n].key);
            && KeysOf(contracts[..n + 1]) == KeysOf(contracts[..n]) + {key}
            && (KeysAreDistinct(contracts[..n + 1]) <==>
                  KeysAreDistinct(contracts[..n]) && key !in KeysOf(contracts[..n]))
  {
    var before, more, c := contracts[..n], contracts[..n + 1], contracts[n];
    assert more == before + [c];
    assert forall i :: 0 <= i < n ==> more[i] == before[i];
    forall d | d in before ensures d in more && (d.module_, d.key) in KeysOf(more) {}
    if (c.module_, c.key) in KeysOf(before) {
      var i :| 0 <= i < n && (before[i].module_, before[i].key) == (c.module_, c.key);
      assert more[i].module_ == more[n].module_ && more[i].key == more[n].key;
    }
  }

  /** The duplicate-key check of validate_model diagnoses every contract whose module and key came up
      before it. */
  method CountDuplicateKeys(contracts: seq<Contract>) returns (diagnosed: nat)
    ensures diagnosed == 0 <==> KeysAreDistinct(contracts)
    ensures diagnosed == |contracts| - |KeysOf(contracts)|
  {
    var keys: set<(string, string)> := {};
    diagnosed := 0;
    assert contracts[..0] == [] && keys == KeysOf([]) && KeysAreDistinct([]);
    hide KeysOf, KeysAreDistinct;
    for n := 0 to |contracts|
      invariant keys == KeysOf(contracts[..n]) && diagnosed == n - |keys|
      invariant diagnosed == 0 <==> KeysAreDistinct(contracts[..n])
    {
      KeysGrow(contracts, n);
      var key := (contracts[n].module_, contracts[n].key);
      assert key in keys ==> keys + {key} == keys;
      if key in keys { diagnosed := diagnosed + 1; }
      keys := keys + {key};
    }
    assert contracts[..|contracts|] == contracts;
  }

  lemma DistinctKeysDecide(contracts: seq<Contract>, module_: string)
    requires KeysAreDistinct(contracts)
    ensures Unambiguous(OfModule(contracts, module_))
  {
    var s := OfModule(contracts, module_);
    forall c, d | c in s && d in s && c.key == d.key ensures c == d {
      var i :| 0 <= i < |contracts| && contracts[i] == c;
      var j :| 0 <= j < |contracts| && contracts[j] == d;
    }
  }

  lemma OrderingsHaveOneModule(contracts: seq<Contract>, others: seq<Contract>, module_: string)
    requires multiset(contracts) == multiset(others)
    ensures multiset(OfModule(contracts, module_)) == multiset(OfModule(others, module_))
  {
    forall c ensures multiset(OfModule(contracts, module_))[c] == multiset(OfModule(others, module_))[c] {
      OfModuleCounts(contracts, module_, c);
      OfModuleCounts(others, module_, c);
    }
  }

  /** Any two orderings of contracts that pass the check render the same text, whatever the sort does
      with its freedom. */
  lemma RenderingIsDeterministic(header: string, contracts: seq<Contract>, others: seq<Contract>, module_: string,
                                 text: string, other: string)
    requires multiset(contracts) == multiset(others) && KeysAreDistinct(contracts)
    requires Renders(header, contracts, module_, text) && Renders(header, others, module_, other)
    ensures text == other
  {
    var own := OfModule(contracts, module_);
    var s :| IsSortOf(s, own) && text == Text(header, s, module_);
    var t :| IsSortOf(t, OfModule(others, module_)) && other == Text(header, t, module_);
    OrderingsHaveOneModule(contracts, others, module_);
    DistinctKeysDecide(contracts, module_);
    forall c | c in s ensures c in own { assert c in multiset(s); }
    SortIsUnique(s, t);
  }

  // ---- Exactly when the order does not matter ----------------------------------------------

  /** Neither contract comes before the other. */
  predicate Tied(c: Contract, d: Contract) {
    c.section == d.section && c.key == d.key
  }

  /** The two payloads read the same in either order. */
  predicate Commute(c: Contract, d: Contract) {
    c.payload + "\n\n" + d.payload == d.payload + "\n\n" + c.payload
  }

  ghost predicate TiesCommute(s: seq<Contract>) {
    forall c, d :: c in s && d in s && Tied(c, d) ==> Commute(c, d)
  }

  function Lump(c: Contract): string {
    "\n\n" + c.payload
  }

  lemma {:induction false} PayloadsJoin(s: seq<Contract>, t: seq<Contract>)
    ensures Payloads(s + t) == Payloads(s) + Payloads(t)
  {
    if t == [] {
      assert s + t == s;
    } else {
      var init, last := t[..|t| - 1], t[|t| - 1];
      assert (s + t)[..|s + t| - 1] == s + init;
      PayloadsJoin(s, init);
      assert Payloads(s) + (Payloads(init) + "\n\n" + last.payload)
          == Payloads(s) + Payloads(init) + "\n\n" + last.payload;
    }
  }

  lemma PayloadsOfOne(c: Contract)
    ensures Payloads([c]) == Lump(c)
  {
    assert [c][..0] == [];
  }

  lemma CommutingLumps(c: Contract, d: Contract)
    ensures Commute(c, d) <==> Lump(c) + Lump(d) == Lump(d) + Lump(c)
  {
    assert Lump(c) + Lump(d) == "\n\n" + (c.payload + "\n\n" + d.payload);
    assert Lump(d) + Lump(c) == "\n\n" + (d.payload + "\n\n" + c.payload);
    assert ("\n\n" + (c.payload + "\n\n" + d.payload))[2..] == c.payload + "\n\n" + d.payload;
    assert ("\n\n" + (d.payload + "\n\n" + c.payload))[2..] == d.payload + "\n\n" + c.payload;
  }

  /** A payload that commutes with all before it may as well come first. */
  lemma {:induction false} MovesToFront(before: seq<Contract>, c: Contract)
    requires forall d :: d in before ==> Commute(c, d)
    ensures Payloads(before) + Lump(c) == Lump(c) + Payloads(before)
  {
    if before == [] {
      assert Payloads(before) == "";
    } else {
      var init, d := before[..|before| - 1], before[|before| - 1];
      MovesToFront(init, c);
      CommutingLumps(c, d);
      Regroup(Payloads(init), Lump(c), Lump(d));
      assert Payloads(before) == Payloads(init) + Lump(d);
    }
  }

  lemma Regroup(p: string, c: string, d: string)
    requires p + c == c + p && c + d == d + c
    ensures p + d + c == c + (p + d)
  {
    assert p + d + c == p + (d + c) == p + (c + d) == p + c + d == c + p + d == c + (p + d);
  }

  /** In two sorts of the same contracts, everything before the first of one is tied with it in the other. */
  lemma AheadIsTied(s: seq<Contract>, t: seq<Contract>, j: nat, d: Contract)
    requires IsSorted(s) && IsSorted(t) && multiset(s) == multiset(t) && t != []
    requires j < |s| && s[j] == t[0] && d in s[..j]
    ensures Tied(t[0], d)
  {
    var i :| 0 <= i < j && s[i] == d;
    assert d in multiset(t);
    var k :| 0 <= k < |t| && t[k] == d;
    BeforeIsAnOrder(d, t[0], d);
    BeforeIsAnOrder(d, d, d);
  }

  /** If tied payloads commute, the first contract of one sort may be read first in any other. */
  lemma ReadFirstAnywhere(s: seq<Contract>, t: seq<Contract>, j: nat)
    requires IsSorted(s) && IsSorted(t) && multiset(s) == multiset(t) && TiesCommute(s)
    requires t != [] && j < |s| && s[j] == t[0]
    ensures Payloads(s) == Lump(t[0]) + Payloads(s[..j] + s[j + 1..])
  {
    hide IsSorted, Before, Payloads, Lump, Tied, Commute;
    var before, after := s[..j], s[j + 1..];
    assert s == before + [t[0]] + after;
    assert t[0] in s;
    forall d | d in before ensures Commute(t[0], d) {
      AheadIsTied(s, t, j, d);
      assert d in s;
    }
    MovesToFront(before, t[0]);
    ReadsFirst(before, t[0], after);
  }

  lemma ReadsHeadFirst(t: seq<Contract>)
    requires t != []
    ensures Payloads(t) == Lump(t[0]) + Payloads(t[1..])
  {
    PayloadsOfOne(t[0]);
    PayloadsJoin([t[0]], t[1..]);
    assert t == [t[0]] + t[1..];
  }

  lemma FewerTiesCommute(s: seq<Contract>, j: nat)
    requires TiesCommute(s) && j < |s|
    ensures TiesCommute(s[..j] + s[j + 1..])
  {
    forall c | c in s[..j] + s[j + 1..] ensures c in s {
    }
  }

  /** If tied payloads commute, all sorts of the same contracts read the same. */
  lemma {:induction false} CommutingTiesReadAlike(s: seq<Contract>, t: seq<Contract>)
    requires IsSorted(s) && IsSorted(t) && multiset(s) == multiset(t) && TiesCommute(s)
    ensures Payloads(s) == Payloads(t)
    decreases |s|
  {
    hide IsSorted, TiesCommute, Payloads, Lump;
    if t == [] {
      assert |multiset(s)| == |s| == 0;
    } else {
      var j := FirstElsewhere(s, t);
      RemovingKeepsSorted(s, j);
      RemovingKeepsSorted(t, 0);
      assert t[..0] + t[1..] == t[1..];
      FewerTiesCommute(s, j);
      CommutingTiesReadAlike(s[..j] + s[j + 1..], t[1..]);
      ReadFirstAnywhere(s, t, j);
      ReadsHeadFirst(t);
    }
  }

  lemma RemovingKeepsSorted(s: seq<Contract>, j: nat)
    requires IsSorted(s) && j < |s|
    ensures IsSorted(s[..j] + s[j + 1..])
  {
  }

  lemma ReadsFirst(before: seq<Contract>, c: Contract, after: seq<Contract>)
    requires Payloads(before) + Lump(c) == Lump(c) + Payloads(before)
    ensures Payloads(before + [c] + after) == Lump(c) + Payloads(before + after)
  {
    PayloadsJoin(before + [c], after);
    PayloadsJoin(before, [c]);
    PayloadsOfOne(c);
    PayloadsJoin(before, after);
    assert Lump(c) + Payloads(before) + Payloads(after) == Lump(c) + (Payloads(before) + Payloads(after));
  }

  /** Tied contracts may stand side by side in either order. */
  lemma TiesSortEitherWay(rest: seq<Contract>, c: Contract, d: Contract) returns (k: nat)
    requires IsSorted(rest) && Tied(c, d)
    ensures k <= |rest|
    ensures IsSorted(rest[..k] + [c, d] + rest[k..]) && IsSorted(rest[..k] + [d, c] + rest[k..])
  {
    k := Place(rest, c);
    BothInserted(rest, k, c, d);
    BothInserted(rest, k, d, c);
  }

  lemma BothInserted(rest: seq<Contract>, k: nat, c: Contract, d: Contract)
    requires IsSorted(rest) && Tied(c, d) && k <= |rest| && (k > 0 ==> !Before(c, rest[k - 1]))
    requires forall j :: k <= j < |rest| ==> Before(c, rest[j])
    ensures IsSorted(rest[..k] + [c, d] + rest[k..])
  {
    InsertKeepsSorted(rest, k, c);
    var one := rest[..k] + [c] + rest[k..];
    BeforeIsAnOrder(c, c, c);
    forall j | k + 1 <= j < |one| ensures Before(d, one[j]) {
      assert one[j] == rest[j - 1];
    }
    InsertKeepsSorted(one, k + 1, d);
    assert one[..k + 1] + [d] + one[k + 1..] == rest[..k] + [c, d] + rest[k..];
  }

  lemma SwapReadsAlikeExactly(before: seq<Contract>, c: Contract, d: Contract, after: seq<Contract>)
    ensures Payloads(before + [c, d] + after) == Payloads(before + [d, c] + after) <==> Commute(c, d)
  {
    PairInside(before, c, d, after);
    PairInside(before, d, c, after);
    CommutingLumps(c, d);
    var p, q, x, y := Payloads(before), Payloads(after), Lump(c) + Lump(d), Lump(d) + Lump(c);
    assert (p + x + q)[|p|..|p| + |x|] == x && (p + y + q)[|p|..|p| + |x|] == y;
  }

  lemma PairInside(before: seq<Contract>, c: Contract, d: Contract, after: seq<Contract>)
    ensures Payloads(before + [c, d] + after) == Payloads(before) + (Lump(c) + Lump(d)) + Payloads(after)
  {
    PayloadsJoin(before + [c, d], after);
    PayloadsJoin(before, [c, d]);
    assert [c, d] == [c] + [d];
    PayloadsJoin([c], [d]);
    PayloadsOfOne(c);
    PayloadsOfOne(d);
  }

  lemma PairAddsBoth(rest: seq<Contract>, k: nat, c: Contract, d: Contract)
    requires k <= |rest|
    ensures multiset(rest[..k] + [c, d] + rest[k..]) == multiset(rest) + multiset{c} + multiset{d}
  {
    InsertionAddsOne(rest, k, c);
    var one := rest[..k] + [c] + rest[k..];
    InsertionAddsOne(one, k + 1, d);
    assert one[..k + 1] + [d] + one[k + 1..] == rest[..k] + [c, d] + rest[k..];
  }

  /** If some tied payloads do not commute, two sorts of the same contracts read differently. */
  lemma ClashingTiesReadApart(s: seq<Contract>, i: nat, j: nat) returns (t: seq<Contract>, u: seq<Contract>)
    requires i < j < |s| && Tied(s[i], s[j]) && !Commute(s[i], s[j])
    ensures IsSortOf(t, s) && IsSortOf(u, s) && Payloads(t) != Payloads(u)
  {
    hide IsSorted, Before, Payloads, Tied, Commute, Sorted;
    var c, d := s[i], s[j];
    var without := s[..j] + s[j + 1..];
    var others := without[..i] + without[i + 1..];
    RemovalTakesOne(s, j);
    RemovalTakesOne(without, i);
    var rest := Sorted(others);
    SortedIsSort(others);
    var k := TiesSortEitherWay(rest, c, d);
    t, u := rest[..k] + [c, d] + rest[k..], rest[..k] + [d, c] + rest[k..];
    PairAddsBoth(rest, k, c, d);
    PairAddsBoth(rest, k, d, c);
    SwapReadsAlikeExactly(rest[..k], c, d, rest[k..]);
  }

  /** No reordering of the contracts and no freedom of the sort shows in the module's text. */
  ghost predicate OrderDoesNotMatter(header: string, contracts: seq<Contract>, module_: string) {
    forall others, text, other ::
      (multiset(others) == multiset(contracts)
       && Renders(header, contracts, module_, text) && Renders(header, others, module_, other)) ==> text == other
  }

  lemma TextsAgreeExactly(header: string, s: seq<Contract>, t: seq<Contract>, module_: string)
    ensures Text(header, s, module_) == Text(header, t, module_) <==> Payloads(s) == Payloads(t)
  {
    var x, y, n := Text(header, s, module_), Text(header, t, module_), |header|;
    assert |x| == |y| ==> |Payloads(s)| == |Payloads(t)|;
    assert x[n..n + |Payloads(s)|] == Payloads(s) && y[n..n + |Payloads(t)|] == Payloads(t);
  }

  /** The rendering of a module is independent of discovery order exactly when the payloads of its
      contracts of one section and one key read the same in either order, two by two. */
  lemma DeterminismExactly(header: string, contracts: seq<Contract>, module_: string)
    ensures OrderDoesNotMatter(header, contracts, module_) <==> TiesCommute(OfModule(contracts, module_))
  {
    var own := OfModule(contracts, module_);
    if TiesCommute(own) {
      forall others, text, other | multiset(others) == multiset(contracts)
          && Renders(header, contracts, module_, text) && Renders(header, others, module_, other)
        ensures text == other
      {
        CommutingTiesRenderAlike(header, contracts, others, module_, text, other);
      }
    } else {
      ClashRendersApart(header, contracts, module_);
    }
  }

  lemma CommutingTiesRenderAlike(header: string, contracts: seq<Contract>, others: seq<Contract>, module_: string,
                                 text: string, other: string)
    requires multiset(contracts) == multiset(others) && TiesCommute(OfModule(contracts, module_))
    requires Renders(header, contracts, module_, text) && Renders(header, others, module_, other)
    ensures text == other
  {
    var own := OfModule(contracts, module_);
    var s :| IsSortOf(s, own) && text == Text(header, s, module_);
    var t :| IsSortOf(t, OfModule(others, module_)) && other == Text(header, t, module_);
    OrderingsHaveOneModule(contracts, others, module_);
    forall c | c in s ensures c in own { assert c in multiset(s); }
    CommutingTiesReadAlike(s, t);
  }

  lemma ClashRendersApart(header: string, contracts: seq<Contract>, module_: string)
    requires !TiesCommute(OfModule(contracts, module_))
    ensures exists text, other ::
              text != other && Renders(header, contracts, module_, text) && Renders(header, contracts, module_, other)
  {
    var own := OfModule(contracts, module_);
    var c, d :| c in own && d in own && Tied(c, d) && !Commute(c, d);
    var i :| 0 <= i < |own| && own[i] == c;
    var j :| 0 <= j < |own| && own[j] == d;
    var t, u := ClashingTiesReadApart(own, if i < j then i else j, if i < j then j else i);
    TextsAgreeExactly(header, t, u, module_);
    assert Renders(header, contracts, module_, Text(header, t, module_));
    assert Renders(header, contracts, module_, Text(header, u, module_));
  }

  /** Two definitions of one key in one section render in either order, and the texts agree exactly when
      the payloads commute. */
  lemma DuplicatesRenderEitherWay(header: string, c: Contract, d: Contract)
    requires c.module_ == d.module_ && Tied(c, d)
    ensures Renders(header, [c, d], c.module_, Text(header, [c, d], c.module_))
    ensures Renders(header, [c, d], c.module_, Text(header, [d, c], c.module_))
    ensures Text(header, [c, d], c.module_) == Text(header, [d, c], c.module_) <==> Commute(c, d)
  {
    BothAreOfTheModule(c, d);
    PairsSortEitherWay(c, d);
    hide Text, IsSortOf, OfModule, Payloads;
    assert Renders(header, [c, d], c.module_, Text(header, [c, d], c.module_));
    TextsAgreeExactly(header, [c, d], [d, c], c.module_);
    assert [] + [c, d] + [] == [c, d] && [] + [d, c] + [] == [d, c];
    SwapReadsAlikeExactly([], c, d, []);
  }

  lemma PairsSortEitherWay(c: Contract, d: Contract)
    requires Tied(c, d)
    ensures IsSortOf([c, d], [c, d]) && IsSortOf([d, c], [c, d])
  {
    BeforeIsAnOrder(c, c, c);
  }

  lemma BothAreOfTheModule(c: Contract, d: Contract)
    requires c.module_ == d.module_
    ensures OfModule([c, d], c.module_) == [c, d]
  {
    assert [c, d][1..] == [d] && [d][1..] == [];
    assert OfModule([d], c.module_) == [d] + [] == [d];
    assert OfModule([c, d], c.module_) == [c] + [d];
  }

  /** Payloads that do not commute: one that goes on where the other ends. */
  lemma LongerPayloadsClash(c: Contract, d: Contract)
    requires d.payload == c.payload + "x"
    ensures !Commute(c, d)
  {
    var at := |c.payload|;
    assert (c.payload + "\n\n" + d.payload)[at] == '\n' && (d.payload + "\n\n" + c.payload)[at] == 'x';
  }
}
