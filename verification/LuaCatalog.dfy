/** The error catalogue of the Lua type generator: a walk over a graph of declared classes, which may
    be cyclic, that must come out as a tree spelling every native error code by its path. */
module LuaCatalog {
  import opened Options
  import opened Collections

  type Name = string

  /** A class is a leaf when it declares a code. */
  datatype ErrorClass = ErrorClass(code: string, fields: map<Name, Name>)

  type Classes = map<Name, ErrorClass>

  predicate IsLeaf(c: ErrorClass) {
    c.code != ""
  }

  // ---- Paths -------------------------------------------------------------------------------

  /** The class a chain of fields leads to. Leaves lead nowhere. */
  function Follow(classes: Classes, name: Name, chain: seq<Name>): Option<Name>
    decreases |chain|
  {
    if chain == [] then Some(name)
    else if name in classes && classes[name].code == "" && chain[0] in classes[name].fields then
      Follow(classes, classes[name].fields[chain[0]], chain[1..])
    else None
  }

  /** The dotted path a chain spells below a root. */
  function Dotted(root: string, chain: seq<Name>): string
    decreases |chain|
  {
    if chain == [] then root else Dotted(root + "." + chain[0], chain[1..])
  }

  ghost predicate ReachesLeaf(classes: Classes, name: Name, chain: seq<Name>, code: string) {
    var end := Follow(classes, name, chain);
    end.Some? && end.value in classes && code != "" && classes[end.value].code == code
  }

  // ---- What the walk reports ---------------------------------------------------------------

  predicate SoundLeaf(c: ErrorClass, path: string) {
    c.fields == map[] && c.code == path
  }

  /** The walk from `name`, with the classes above it open, reports a fault at the end of `chain`. */
  predicate Faulty(classes: Classes, open: set<Name>, name: Name, path: string, chain: seq<Name>)
    decreases |chain|
  {
    if name !in classes || name in open then chain == []
    else if IsLeaf(classes[name]) then chain == [] && !SoundLeaf(classes[name], path)
    else
      && chain != [] && chain[0] in classes[name].fields
      && Faulty(classes, open + {name}, classes[name].fields[chain[0]], path + "." + chain[0], chain[1..])
  }

  /** The walk records the path `chain` spells. */
  predicate Recorded(classes: Classes, open: set<Name>, name: Name, chain: seq<Name>)
    decreases |chain|
  {
    if name !in classes || name in open then false
    else if IsLeaf(classes[name]) then chain == []
    else
      && chain != [] && chain[0] in classes[name].fields
      && Recorded(classes, open + {name}, classes[name].fields[chain[0]], chain[1..])
  }

  ghost predicate Sound(classes: Classes, open: set<Name>, name: Name, path: string) {
    forall chain :: !Faulty(classes, open, name, path, chain)
  }

  ghost predicate Records(classes: Classes, open: set<Name>, name: Name, path: string, v: string) {
    exists chain :: Recorded(classes, open, name, chain) && Dotted(path, chain) == v
  }

  predicate IsInner(classes: Classes, open: set<Name>, name: Name) {
    name in classes && !IsLeaf(classes[name]) && name !in open
  }

  /** An inner class is sound when the class of each field is. */
  lemma SoundByField(classes: Classes, open: set<Name>, name: Name, path: string)
    requires IsInner(classes, open, name)
    ensures var fields := classes[name].fields;
            Sound(classes, open, name, path) <==>
            forall f :: f in fields ==> Sound(classes, open + {name}, fields[f], path + "." + f)
  {
    var fields := classes[name].fields;
    forall f, chain | f in fields
      ensures Faulty(classes, open, name, path, [f] + chain)
           == Faulty(classes, open + {name}, fields[f], path + "." + f, chain)
    {
      assert ([f] + chain)[1..] == chain;
    }
    if Sound(classes, open, name, path) {
      forall f, chain | f in fields ensures !Faulty(classes, open + {name}, fields[f], path + "." + f, chain) {
        assert !Faulty(classes, open, name, path, [f] + chain);
      }
    } else {
      var chain :| Faulty(classes, open, name, path, chain);
      assert Faulty(classes, open + {name}, fields[chain[0]], path + "." + chain[0], chain[1..]);
    }
  }

  /** What an inner class records is what its fields' classes record. */
  lemma RecordsByField(classes: Classes, open: set<Name>, name: Name, path: string, v: string)
    requires IsInner(classes, open, name)
    ensures var fields := classes[name].fields;
            Records(classes, open, name, path, v) <==>
            exists f :: f in fields && Records(classes, open + {name}, fields[f], path + "." + f, v)
  {
    var fields := classes[name].fields;
    if Records(classes, open, name, path, v) {
      var chain :| Recorded(classes, open, name, chain) && Dotted(path, chain) == v;
      assert Recorded(classes, open + {name}, fields[chain[0]], chain[1..]);
      assert Dotted(path + "." + chain[0], chain[1..]) == v;
      assert Records(classes, open + {name}, fields[chain[0]], path + "." + chain[0], v);
    }
    if f :| f in fields && Records(classes, open + {name}, fields[f], path + "." + f, v) {
      var chain :| Recorded(classes, open + {name}, fields[f], chain) && Dotted(path + "." + f, chain) == v;
      assert ([f] + chain)[1..] == chain;
      assert Recorded(classes, open, name, [f] + chain) && Dotted(path, [f] + chain) == v;
    }
  }

  /** A class that is not inner ends the walk. */
  lemma WalkEnds(classes: Classes, open: set<Name>, name: Name, path: string, v: string)
    requires !IsInner(classes, open, name)
    ensures var closed := name in classes && name !in open;
            && (Sound(classes, open, name, path) <==> closed && SoundLeaf(classes[name], path))
            && (Records(classes, open, name, path, v) <==> closed && v == path)
  {
    assert Faulty(classes, open, name, path, []) <==>
           name !in classes || name in open || !SoundLeaf(classes[name], path);
    assert Recorded(classes, open, name, []) <==> name in classes && name !in open;
    assert Dotted(path, []) == path;
  }

  class CatalogWalk {
    const classes: Classes
    var visiting: set<Name>
    var treeValues: set<string>
    var invalid: bool

    constructor (classes: Classes)
      ensures this.classes == classes && visiting == {} && treeValues == {} && !invalid
    {
      this.classes := classes;
      visiting, treeValues, invalid := {}, {}, false;
    }

    /** visit_class: it ends on every graph, because the classes being visited only grow on the way
        down. */
    method VisitClass(name: Name, path: string)
      modifies this
      ensures visiting == old(visiting)
      ensures invalid <==> old(invalid) || !Sound(classes, visiting, name, path)
      ensures forall v :: v in treeValues <==> v in old(treeValues) || Records(classes, visiting, name, path, v)
      decreases classes.Keys - visiting, 0
    {
      if !IsInner(classes, visiting, name) {
        WalkEnds(classes, visiting, name, path, path);
        forall v
          ensures Records(classes, visiting, name, path, v) <==> name in classes && name !in visiting && v == path
        {
          WalkEnds(classes, visiting, name, path, v);
        }
      }
      if name !in classes || name in visiting {
        invalid := true;
        return;
      }
      visiting := visiting + {name};
      var definition := classes[name];
      if IsLeaf(definition) {
        if definition.fields != map[] || definition.code != path { invalid := true; }
        treeValues := treeValues + {path};
      } else {
        VisitFields(name, path);
        SoundByField(classes, old(visiting), name, path);
        var fields := classes[name].fields;
        forall v
          ensures Records(classes, old(visiting), name, path, v) <==>
                  exists f :: f in fields && Records(classes, visiting, fields[f], path + "." + f, v)
        {
          RecordsByField(classes, old(visiting), name, path, v);
        }
      }
      visiting := visiting - {name};
      assert visiting == old(visiting);
    }

    /** The loop over one class's fields. */
    method VisitFields(name: Name, path: string)
      requires name in classes && name in visiting
      modifies this
      ensures visiting == old(visiting)
      ensures var fields := classes[name].fields;
              invalid <==>
                (old(invalid) || !forall f :: f in fields ==> Sound(classes, visiting, fields[f], path + "." + f))
      ensures var fields := classes[name].fields;
              forall v :: v in treeValues <==>
                (v in old(treeValues)
                || exists f :: f in fields && Records(classes, visiting, fields[f], path + "." + f, v))
      decreases classes.Keys - visiting, 1
    {
      var fields := classes[name].fields;
      var pending := fields.Keys;
      while pending != {}
        invariant pending <= fields.Keys && visiting == old(visiting)
        invariant invalid <==>
            (old(invalid)
            || !forall f :: f in fields && f !in pending ==> Sound(classes, visiting, fields[f], path + "." + f))
        invariant forall v :: v in treeValues <==>
            (v in old(treeValues)
            || exists f :: f in fields && f !in pending && Records(classes, visiting, fields[f], path + "." + f, v))
        decreases pending
      {
        ghost var any := Member(pending);
        var f :| f in pending;
        VisitClass(fields[f], path + "." + f);
        pending := pending - {f};
      }
    }
  }

  // ---- What the reports mean ---------------------------------------------------------------

  ghost predicate Passed(classes: Classes, name: Name, chain: seq<Name>, end: Name) {
    exists k :: 0 <= k < |chain| && Follow(classes, name, chain[..k]) == Some(end)
  }

  /** What a chain of fields must lead to: a declared class that is not above itself, and that spells
      the path of the chain if it is a leaf. */
  ghost predicate GoodEnd(classes: Classes, open: set<Name>, name: Name, path: string, chain: seq<Name>, end: Name) {
    && end in classes && end !in open && !Passed(classes, name, chain, end)
    && (classes[end].code != "" ==> classes[end].fields == map[] && classes[end].code == Dotted(path, chain))
  }

  ghost predicate GoodChain(classes: Classes, open: set<Name>, name: Name, path: string, chain: seq<Name>) {
    var end := Follow(classes, name, chain);
    end.Some? ==> GoodEnd(classes, open, name, path, chain, end.value)
  }

  /** One field further along: the chain from an inner class and the chain from its field's class. */
  lemma StepDown(classes: Classes, open: set<Name>, name: Name, path: string, chain: seq<Name>)
    requires IsInner(classes, open, name) && chain != [] && chain[0] in classes[name].fields
    ensures GoodChain(classes, open, name, path, chain) <==>
            GoodChain(classes, open + {name}, classes[name].fields[chain[0]], path + "." + chain[0], chain[1..])
  {
    var child, rest := classes[name].fields[chain[0]], chain[1..];
    var end := Follow(classes, name, chain);
    assert end == Follow(classes, child, rest);
    if end.Some? {
      forall k | 0 < k <= |chain| ensures Follow(classes, name, chain[..k]) == Follow(classes, child, rest[..k - 1]) {
        assert chain[..k][1..] == rest[..k - 1];
      }
      assert chain[..0] == [];
      if Passed(classes, name, chain, end.value) && end.value != name {
        var k :| 0 <= k < |chain| && Follow(classes, name, chain[..k]) == end;
        assert Follow(classes, child, rest[..k - 1]) == end;
      }
      if Passed(classes, child, rest, end.value) {
        var k :| 0 <= k < |rest| && Follow(classes, child, rest[..k]) == end;
        assert Follow(classes, name, chain[..k + 1]) == end;
      }
      assert Follow(classes, name, chain[..0]) == Some(name);
    }
  }

  lemma {:induction false} SoundChainIsGood(classes: Classes, open: set<Name>, name: Name, path: string,
                                           chain: seq<Name>)
    requires Sound(classes, open, name, path)
    ensures GoodChain(classes, open, name, path, chain)
    decreases |chain|
  {
    if !IsInner(classes, open, name) {
      WalkEnds(classes, open, name, path, path);
    } else if chain == [] {
    } else if chain[0] in classes[name].fields {
      SoundByField(classes, open, name, path);
      SoundChainIsGood(classes, open + {name}, classes[name].fields[chain[0]], path + "." + chain[0], chain[1..]);
      StepDown(classes, open, name, path, chain);
    }
  }

  lemma {:induction false} FaultIsABadEnd(classes: Classes, open: set<Name>, name: Name, path: string, chain: seq<Name>)
    requires Faulty(classes, open, name, path, chain)
    ensures !GoodChain(classes, open, name, path, chain)
    decreases |chain|
  {
    if IsInner(classes, open, name) {
      FaultIsABadEnd(classes, open + {name}, classes[name].fields[chain[0]], path + "." + chain[0], chain[1..]);
      StepDown(classes, open, name, path, chain);
    }
  }

  /** The walk stays silent exactly when every chain of fields below the root ends well. */
  lemma SoundIsGood(classes: Classes, root: Name, path: string)
    ensures Sound(classes, {}, root, path) <==> forall chain :: GoodChain(classes, {}, root, path, chain)
  {
    if Sound(classes, {}, root, path) {
      forall chain ensures GoodChain(classes, {}, root, path, chain) {
        SoundChainIsGood(classes, {}, root, path, chain);
      }
    } else {
      var chain :| Faulty(classes, {}, root, path, chain);
      FaultIsABadEnd(classes, {}, root, path, chain);
    }
  }

  /** A silent walk has seen a tree no deeper than there are classes. */
  lemma {:induction false} SoundChainsAreShort(classes: Classes, open: set<Name>, name: Name, path: string,
                                              chain: seq<Name>)
    requires Sound(classes, open, name, path) && Follow(classes, name, chain).Some?
    ensures |chain| < |classes.Keys - open|
    decreases |chain|
  {
    WalkReaches(classes, open, name, path);
    assert name in classes.Keys - open;
    if chain != [] {
      SoundByField(classes, open, name, path);
      SoundChainsAreShort(classes, open + {name}, classes[name].fields[chain[0]], path + "." + chain[0], chain[1..]);
      assert classes.Keys - (open + {name}) == (classes.Keys - open) - {name};
    }
  }

  lemma WalkReaches(classes: Classes, open: set<Name>, name: Name, path: string)
    requires Sound(classes, open, name, path)
    ensures name in classes && name !in open
  {
    if !IsInner(classes, open, name) { WalkEnds(classes, open, name, path, path); }
  }

  /** What a silent walk records is the code of every leaf it reaches. */
  lemma {:induction false} RecordedIsReached(classes: Classes, open: set<Name>, name: Name, path: string,
                                            chain: seq<Name>)
    requires Sound(classes, open, name, path)
    ensures Recorded(classes, open, name, chain) <==> ReachesLeaf(classes, name, chain, Dotted(path, chain))
    decreases |chain|
  {
    SoundChainIsGood(classes, open, name, path, chain);
    if !IsInner(classes, open, name) {
      WalkEnds(classes, open, name, path, path);
    } else if chain != [] && chain[0] in classes[name].fields {
      SoundByField(classes, open, name, path);
      RecordedIsReached(classes, open + {name}, classes[name].fields[chain[0]], path + "." + chain[0], chain[1..]);
    }
  }

  // ---- Dotted names ------------------------------------------------------------------------

  function FirstDot(text: string): (n: nat)
    ensures n <= |text| && (forall i :: 0 <= i < n ==> text[i] != '.') && (n < |text| ==> text[n] == '.')
  {
    if text == [] || text[0] == '.' then 0 else FirstDot(text[1..]) + 1
  }

  function Split(text: string): seq<Name>
    decreases |text|
  {
    var n := FirstDot(text);
    if n == |text| then [text] else [text[..n]] + Split(text[n + 1..])
  }

  /** The fields a code names below the root. */
  function FieldsOf(root: string, code: string): seq<Name> {
    if |code| <= |root| then [] else Split(code[|root| + 1..])
  }

  predicate Dotless(chain: seq<Name>) {
    forall i :: 0 <= i < |chain| ==> '.' !in chain[i]
  }

  function Joined(chain: seq<Name>): string
    requires chain != []
  {
    if |chain| == 1 then chain[0] else chain[0] + "." + Joined(chain[1..])
  }

  lemma {:induction false} DottedIsJoined(root: string, chain: seq<Name>)
    requires chain != []
    ensures Dotted(root, chain) == root + "." + Joined(chain)
    decreases |chain|
  {
    if |chain| > 1 {
      DottedIsJoined(root + "." + chain[0], chain[1..]);
      assert root + "." + chain[0] + "." + Joined(chain[1..]) == root + "." + (chain[0] + "." + Joined(chain[1..]));
    } else {
      assert chain[1..] == [];
    }
  }

  lemma {:induction false} SplitUndoesJoined(chain: seq<Name>)
    requires chain != [] && Dotless(chain)
    ensures Split(Joined(chain)) == chain
    decreases |chain|
  {
    var text, n := Joined(chain), FirstDot(Joined(chain));
    var head := chain[0];
    assert forall i :: 0 <= i < |head| ==> text[i] == head[i] && head[i] in head;
    assert n >= |head|;
    if |chain| > 1 {
      assert text[|head|] == '.';
      assert text[..n] == head;
      assert text[n + 1..] == Joined(chain[1..]);
      SplitUndoesJoined(chain[1..]);
      assert chain == [head] + chain[1..];
    }
  }

  /** A dotted path names its fields. */
  lemma FieldsOfDotted(root: string, chain: seq<Name>)
    requires Dotless(chain)
    ensures FieldsOf(root, Dotted(root, chain)) == chain
  {
    if chain != [] {
      DottedIsJoined(root, chain);
      assert Dotted(root, chain)[|root| + 1..] == Joined(chain);
      SplitUndoesJoined(chain);
    }
  }

  ghost predicate FieldsAreDotless(classes: Classes) {
    forall c, f :: c in classes && f in classes[c].fields ==> '.' !in f
  }

  lemma {:induction false} ChainIsDotless(classes: Classes, name: Name, chain: seq<Name>)
    requires FieldsAreDotless(classes) && Follow(classes, name, chain).Some?
    ensures Dotless(chain)
    decreases |chain|
  {
    if chain != [] {
      ChainIsDotless(classes, classes[name].fields[chain[0]], chain[1..]);
      assert chain == [chain[0]] + chain[1..];
    }
  }

  // ---- The diagnosis -----------------------------------------------------------------------

  /** Following the fields a native code names reaches a leaf with exactly that code, and every other
      chain of fields reaches no leaf. */
  ghost predicate Spells(classes: Classes, root: Name, path: string, native: set<string>) {
    && (forall code :: code in native ==> ReachesLeaf(classes, root, FieldsOf(path, code), code))
    && (forall chain, code :: ReachesLeaf(classes, root, chain, code) ==>
          code in native && chain == FieldsOf(path, code))
  }

  /** No mismatch is diagnosed exactly when every chain ends well and the native codes are spelled. */
  lemma SilenceMeansSpelled(classes: Classes, root: Name, path: string, native: set<string>)
    requires FieldsAreDotless(classes)
    ensures Sound(classes, {}, root, path) && (forall v :: v in native <==> Records(classes, {}, root, path, v))
            <==> (forall chain :: GoodChain(classes, {}, root, path, chain)) && Spells(classes, root, path, native)
  {
    SoundIsGood(classes, root, path);
    if Sound(classes, {}, root, path) {
      forall chain
        ensures Recorded(classes, {}, root, chain) <==> ReachesLeaf(classes, root, chain, Dotted(path, chain))
      {
        RecordedIsReached(classes, {}, root, path, chain);
      }
      forall chain, code | ReachesLeaf(classes, root, chain, code)
        ensures code == Dotted(path, chain) && chain == FieldsOf(path, code) && Records(classes, {}, root, path, code)
      {
        assert GoodChain(classes, {}, root, path, chain);
        ChainIsDotless(classes, root, chain);
        FieldsOfDotted(path, chain);
      }
      forall v | Records(classes, {}, root, path, v) ensures ReachesLeaf(classes, root, FieldsOf(path, v), v) {
        var chain :| Recorded(classes, {}, root, chain) && Dotted(path, chain) == v;
        assert ReachesLeaf(classes, root, chain, v);
      }
    }
  }

  /** catalog_contract_values on recognised classes, and the diagnoses drawn from it. */
  method Diagnose(classes: Classes, root: Name, path: string, native: set<string>) returns (silent: bool)
    requires FieldsAreDotless(classes)
    ensures silent <==>
            (forall chain :: GoodChain(classes, {}, root, path, chain)) && Spells(classes, root, path, native)
  {
    var walk := new CatalogWalk(classes);
    walk.VisitClass(root, path);
    silent := !walk.invalid && walk.treeValues == native;
    SilenceMeansSpelled(classes, root, path, native);
  }
}
