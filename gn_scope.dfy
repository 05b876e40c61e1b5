/**
 * GN's `Scope`: a map from variable names to values with a "used" flag each,
 * nested in a containing scope that is either mutable (lookups and marks go
 * through it) or const (lookups see it, mutable access and marks stop there).
 * Behaviour as asserted by gn/scope_unittest.cc; scope.cc is not part of this
 * model.
 */
module GnScope {
  import opened Wrappers

  datatype Value = Bool(b: bool) | Int(i: int) | Str(s: string) | List(items: seq<Value>)

  /** A variable: its value and whether it has been read. */
  datatype Record = Record(value: Value, used: bool)

  /** Whether a value found in the destination of a merge lets `v` be merged without a collision. */
  predicate Compatible(found: Option<Value>, v: Value)
  {
    found.None? || found.value == v
  }

  /** Copying one more pending variable over `base` extends the copied part by that variable. */
  lemma CopiedOneMore(base: map<string, Record>, values: map<string, Record>, pending: set<string>, k: string)
    requires k in pending && pending <= values.Keys
    ensures (base + map x | x in values.Keys - pending :: values[x])[k := values[k]]
            == base + map x | x in values.Keys - (pending - {k}) :: values[x]
  {
  }

  /** `m` with the variable `name`, if present, marked as used. */
  function Mark(m: map<string, Record>, name: string): (r: map<string, Record>)
    ensures r.Keys == m.Keys
    ensures forall k :: k in r ==> r[k].value == m[k].value
  {
    if name in m then m[name := m[name].(used := true)] else m
  }

  class Scope {
    var values: map<string, Record>
    /** The containing scope, fixed when the scope is made. */
    const containing: Scope?
    /** Whether this scope sees its containing scope as const. */
    const containingIsConst: bool
    /** This scope and its containing scopes. */
    ghost const Repr: set<Scope>
    ghost const depth: nat

    ghost predicate Valid()
      decreases depth
    {
      this in Repr &&
      (containing == null ==> Repr == {this} && depth == 0) &&
      (containing != null ==>
         containing.depth < depth && containing in containing.Repr && this !in containing.Repr &&
         Repr == {this} + containing.Repr && containing.Valid())
    }

    /** A scope without a containing scope. */
    constructor Root()
      ensures Valid() && fresh(this)
      ensures values == map[] && containing == null
    {
      values := map[];
      containing := null;
      containingIsConst := false;
      Repr := {this};
      depth := 0;
    }

    /** A scope nested in `parent`, which it sees as const when `parentIsConst`. */
    constructor Nested(parent: Scope, parentIsConst: bool)
      requires parent.Valid()
      ensures Valid() && fresh(this)
      ensures values == map[] && containing == parent && containingIsConst == parentIsConst
    {
      values := map[];
      containing := parent;
      containingIsConst := parentIsConst;
      Repr := {this} + parent.Repr;
      depth := parent.depth + 1;
    }

    /** This scope and the scopes reached through mutable containing links. */
    ghost function MutableRepr(): (r: set<Scope>)
      requires Valid()
      ensures this in r && r <= Repr
      decreases depth
    {
      {this} + if containing != null && !containingIsConst then containing.MutableRepr() else {}
    }

    /** The first containing scope seen as const, or null when the chain has none. */
    function ConstAncestor(): (r: Scope?)
      requires Valid()
      ensures r != null ==> r in Repr && r != this && r.Valid()
      decreases depth
    {
      if containing == null then null
      else if containingIsConst then containing
      else containing.ConstAncestor()
    }

    /** The const `GetValue`: the innermost value of `name` along the whole chain; nothing only when no scope of the chain has it. */
    function LookUp(name: string): (r: Option<Value>)
      requires Valid()
      reads Repr
      ensures name in values ==> r == Some(values[name].value)
      ensures r.None? <==> forall s :: s in Repr ==> name !in s.values
      decreases depth
    {
      if name in values then Some(values[name].value)
      else if containing == null then None
      else containing.LookUp(name)
    }

    /** The variables of the mutable part of the chain, inner ones shadowing outer ones. */
    function Flattened(): (r: map<string, Record>)
      requires Valid()
      reads Repr
      ensures forall k :: k in values ==> k in r && r[k] == values[k]
      decreases depth
    {
      (if containing != null && !containingIsConst then containing.Flattened() else map[]) + values
    }

    /** The scope of the mutable part of the chain that holds `name`, if any. */
    ghost function MutableOwner(name: string): (r: Scope?)
      requires Valid()
      reads Repr
      ensures r != null ==> r in MutableRepr() && name in r.values
      decreases depth
    {
      if name in values then this
      else if containing != null && !containingIsConst then containing.MutableOwner(name)
      else null
    }

    /**
     * A lookup along the chain finds the flattened mutable part first and
     * otherwise whatever the first const ancestor sees.
     */
    lemma {:induction false} LookUpThroughConstAncestor(name: string)
      requires Valid()
      ensures LookUp(name) ==
        if name in Flattened() then Some(Flattened()[name].value)
        else if ConstAncestor() != null then ConstAncestor().LookUp(name)
        else None
      decreases depth
    {
      if containing != null && !containingIsConst {
        containing.LookUpThroughConstAncestor(name);
      }
    }

    /** `SetValue`: assigns `name` here, keeping its used flag when it already exists. */
    method SetValue(name: string, v: Value)
      modifies this
      ensures values == old(values)[name := Record(v, name in old(values) && old(values)[name].used)]
    {
      if name in values {
        values := values[name := values[name].(value := v)];
      } else {
        values := values[name := Record(v, false)];
      }
    }

    /**
     * `GetMutableValue`: the value of `name` in this scope or the mutable
     * containing scopes, never in a const one; marks it used when asked.
     */
    method GetMutableValue(name: string, countsAsUsed: bool) returns (r: Option<Value>)
      requires Valid()
      modifies MutableRepr()
      ensures r == old(if name in Flattened() then Some(Flattened()[name].value) else None)
      ensures forall s :: s in Repr ==>
        s.values == if countsAsUsed && s == old(MutableOwner(name)) then Mark(old(s.values), name) else old(s.values)
      decreases depth
    {
      if name in values {
        r := Some(values[name].value);
        if countsAsUsed {
          values := Mark(values, name);
        }
      } else if containing != null && !containingIsConst {
        r := containing.GetMutableValue(name, countsAsUsed);
      } else {
        r := None;
      }
    }

    /**
     * The marking `GetValue`: the value of `name` along the whole chain,
     * marking it used when asked only where it lies on the mutable part.
     */
    method GetValue(name: string, countsAsUsed: bool) returns (r: Option<Value>)
      requires Valid()
      modifies MutableRepr()
      ensures r == old(LookUp(name))
      ensures forall s :: s in Repr ==>
        s.values == if countsAsUsed && s == old(MutableOwner(name)) then Mark(old(s.values), name) else old(s.values)
      decreases depth
    {
      if name in values {
        r := Some(values[name].value);
        if countsAsUsed {
          values := Mark(values, name);
        }
      } else if containing == null {
        r := None;
      } else if containingIsConst {
        r := containing.LookUp(name);
      } else {
        r := containing.GetValue(name, countsAsUsed);
      }
    }

    /** `CheckForUnusedVars`: fails on the first variable of this scope that was never read. */
    method CheckForUnusedVars() returns (ok: bool)
      ensures ok <==> forall k :: k in values ==> values[k].used
    {
      var pending := values.Keys;
      while pending != {}
        invariant pending <= values.Keys
        invariant forall k :: k in values && k !in pending ==> values[k].used
        decreases pending
      {
        var k :| k in pending;
        if !values[k].used {
          return false;
        }
        pending := pending - {k};
      }
      return true;
    }

    /**
     * `NonRecursiveMergeTo`: copies this scope's variables into `dest`, in an
     * unspecified order. Without `clobber`, a variable that `dest` already sees
     * with a different value is a collision: the merge stops with an error,
     * keeping what it copied so far. Equal values do not collide.
     */
    method NonRecursiveMergeTo(dest: Scope, clobber: bool) returns (ok: bool)
      requires Valid() && dest.Valid() && dest != this
      modifies dest
      ensures ok <==> clobber || forall k :: k in values ==> Compatible(old(dest.LookUp(k)), values[k].value)
      ensures ok ==> dest.values == old(dest.values) + values
      ensures old(dest.values).Keys <= dest.values.Keys
      ensures forall k :: k in dest.values ==>
        (k in old(dest.values) && dest.values[k] == old(dest.values)[k]) || (k in values && dest.values[k] == values[k])
    {
      var pending := values.Keys;
      while pending != {}
        invariant pending <= values.Keys
        invariant dest.values == old(dest.values) + map k | k in values.Keys - pending :: values[k]
        invariant !clobber ==> forall k :: k in values && k !in pending ==> Compatible(old(dest.LookUp(k)), values[k].value)
        decreases pending
      {
        var k :| k in pending;
        if !clobber {
          assert k !in values.Keys - pending;
          assert k in dest.values <==> k in old(dest.values);
          assert k in dest.values ==> dest.values[k] == old(dest.values)[k];
          var existing := dest.LookUp(k);
          assert existing == old(dest.LookUp(k));
          if !Compatible(existing, values[k].value) {
            return false;
          }
        }
        CopiedOneMore(old(dest.values), values, pending, k);
        dest.values := dest.values[k := values[k]];
        pending := pending - {k};
      }
      assert values.Keys - pending == values.Keys;
      ok := true;
    }

    /**
     * `MakeClosure`: a new scope contained in the first const ancestor (none
     * for a root) holding the flattened mutable chain, inner values shadowing
     * outer ones.
     */
    method MakeClosure() returns (result: Scope)
      requires Valid()
      ensures fresh(result) && result.Valid()
      ensures result.containing == ConstAncestor() && (result.containing != null ==> result.containingIsConst)
      ensures result.values == Flattened()
      ensures forall name :: result.LookUp(name) == LookUp(name)
      decreases depth
    {
      if containing != null && containingIsConst {
        result := new Scope.Nested(containing, true);
      } else if containing != null {
        result := containing.MakeClosure();
      } else {
        result := new Scope.Root();
      }
      var _ := NonRecursiveMergeTo(result, true);
      ClosureLooksUpSame(result);
    }

    /** A scope holding the flattened mutable chain, inside the first const ancestor, looks up every name as this one does. */
    lemma ClosureLooksUpSame(closure: Scope)
      requires Valid() && closure.Valid() && closure.values == Flattened()
      requires closure.containing == ConstAncestor() && (closure.containing != null ==> closure.containingIsConst)
      ensures forall name :: closure.LookUp(name) == LookUp(name)
    {
      forall name
        ensures closure.LookUp(name) == LookUp(name)
      {
        LookUpThroughConstAncestor(name);
        closure.LookUpThroughConstAncestor(name);
      }
    }
  }
}

/** The scenarios of gn/scope_unittest.cc, run on the model. */
module GnScopeScenarios {
  import opened Wrappers
  import opened GnScope

  /** A root scope holding `v`. */
  method ScopeWith(v: Value) returns (scope: Scope)
    ensures fresh(scope) && scope.Valid() && scope.containing == null
    ensures scope.values == map["v" := Record(v, false)]
  {
    scope := new Scope.Root();
    scope.SetValue("v", v);
  }

  /** Merging `v = "hello"` into a scope holding `v = "goodbye"` collides. */
  method CollisionScenario() returns (ok: bool)
    ensures !ok
  {
    var scope := ScopeWith(Str("hello"));
    var dest := ScopeWith(Str("goodbye"));
    assert !Compatible(dest.LookUp("v"), scope.values["v"].value);
    ok := scope.NonRecursiveMergeTo(dest, false);
  }

  /** With clobber, the same merge succeeds and overwrites the destination's value. */
  method ClobberScenario() returns (ok: bool, found: Option<Value>)
    ensures ok && found == Some(Str("hello"))
  {
    var scope := ScopeWith(Str("hello"));
    var dest := ScopeWith(Str("goodbye"));
    ok := scope.NonRecursiveMergeTo(dest, true);
    found := dest.LookUp("v");
  }

  /** Merging into a scope holding the same value does not collide. */
  method SameValueScenario() returns (ok: bool)
    ensures ok
  {
    var scope := ScopeWith(Str("hello"));
    var dest := ScopeWith(Str("hello"));
    ok := scope.NonRecursiveMergeTo(dest, false);
  }

  /** The closure of a root has no containing scope and copies the root's values. */
  method RootClosureScenario() returns (closure: Scope)
    ensures closure.Valid() && closure.containing == null && closure.LookUp("on_root") == Some(Str("on_root"))
  {
    var root := new Scope.Root();
    root.SetValue("on_root", Str("on_root"));
    closure := root.MakeClosure();
  }

  /** The closure of a scope nested in a mutable scope nested in a const root. */
  method NestedClosureScenario() returns (closure: Scope, root: Scope)
    ensures closure.Valid() && closure.containing == root
    ensures closure.LookUp("on_root") == Some(Str("on_root"))
    ensures closure.LookUp("on_one") == Some(Str("on_two"))
    ensures closure.LookUp("on_two") == Some(Str("on_two2"))
  {
    root := new Scope.Root();
    root.SetValue("on_root", Str("on_root"));
    var nested1 := new Scope.Nested(root, true);
    nested1.SetValue("on_one", Str("on_one"));
    var nested2 := new Scope.Nested(nested1, false);
    nested2.SetValue("on_one", Str("on_two"));
    nested2.SetValue("on_two", Str("on_two2"));
    assert nested2.LookUp("on_root") == nested1.LookUp("on_root") == root.LookUp("on_root") == Some(Str("on_root"));
    closure := nested2.MakeClosure();
  }

  /** A const root, a scope seeing it as const, and a scope nested in that one, each holding one variable. */
  method ThreeScopes(value: Value) returns (rootScope: Scope, mutableScope1: Scope, mutableScope2: Scope)
    ensures fresh(rootScope) && fresh(mutableScope1) && fresh(mutableScope2)
    ensures mutableScope2.Valid() && mutableScope2.Repr == {mutableScope2, mutableScope1, rootScope}
    ensures mutableScope2.containing == mutableScope1 && !mutableScope2.containingIsConst
    ensures mutableScope1.containing == rootScope && mutableScope1.containingIsConst
    ensures mutableScope2.MutableRepr() == {mutableScope2, mutableScope1}
    ensures rootScope.values == map["on_const" := Record(value, false)]
    ensures mutableScope1.values == map["on_mutable1" := Record(value, false)]
    ensures mutableScope2.values == map["on_mutable2" := Record(value, false)]
  {
    rootScope := new Scope.Root();
    rootScope.SetValue("on_const", value);
    mutableScope1 := new Scope.Nested(rootScope, true);
    mutableScope1.SetValue("on_mutable1", value);
    mutableScope2 := new Scope.Nested(mutableScope1, false);
    mutableScope2.SetValue("on_mutable2", value);
  }

  /** A variable of a const ancestor is seen by `GetValue` but not by `GetMutableValue`. */
  method ConstAncestorScenario() returns (onConst: Option<Value>, onConstMutable: Option<Value>)
    ensures onConst == Some(Str("hello")) && onConstMutable == None
  {
    var rootScope, mutableScope1, mutableScope2 := ThreeScopes(Str("hello"));
    assert mutableScope1.LookUp("on_const") == rootScope.LookUp("on_const") == Some(Str("hello"));
    onConst := mutableScope2.GetValue("on_const", true);
    onConstMutable := mutableScope2.GetMutableValue("on_const", true);
  }

  /** Reading without marking leaves the variable unused; reading with marking makes it used. */
  method UsedMarkScenario() returns (onMutable1: Option<Value>, checkedBefore: bool, onMutable1Used: Option<Value>,
                                     checkedAfter: bool, onMutable2: Option<Value>)
    ensures onMutable1 == Some(Str("hello")) && !checkedBefore
    ensures onMutable1Used == Some(Str("hello")) && checkedAfter
    ensures onMutable2 == Some(Str("hello"))
  {
    var value := Str("hello");
    var rootScope, mutableScope1, mutableScope2 := ThreeScopes(value);
    var unused := mutableScope1.values;
    assert mutableScope2.MutableOwner("on_mutable1") == mutableScope1;

    onMutable1 := mutableScope2.GetMutableValue("on_mutable1", false);
    assert mutableScope1.values == unused;
    checkedBefore := mutableScope1.CheckForUnusedVars();
    onMutable1Used := mutableScope2.GetMutableValue("on_mutable1", true);
    assert mutableScope1.values == Mark(unused, "on_mutable1");
    checkedAfter := mutableScope1.CheckForUnusedVars();
    onMutable2 := mutableScope2.GetMutableValue("on_mutable2", true);
  }
}
