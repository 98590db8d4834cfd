/**
 * The section catalog: `build_dept_info` turns the insertion-ordered
 * department -> (class label -> source) configuration into the list of
 * (class label, payload) pairs the scheduler scans, the priority
 * department's classes first. The payload stands for what the fetch of the
 * class's source returns; the fetch is a fixed function of the source, so
 * it is applied entry by entry and does not affect the order.
 */
module Catalog {
  import opened Optional

  /** One department of the configuration: its name and its classes in insertion order. */
  type Department<T> = (string, seq<(string, T)>)

  /** Department names are dictionary keys, so no two are equal. */
  predicate DistinctDepartments<T>(depts: seq<Department<T>>) {
    forall i, j :: 0 <= i < j < |depts| ==> depts[i].0 != depts[j].0
  }

  /** Python truthiness of `priority_dept`: None and "" are false. */
  predicate Truthy(priority: Option<string>) {
    priority.Some? && priority.value != ""
  }

  /** `class_urls[name]`, or None when `name` is not a key. */
  function Lookup<T>(depts: seq<Department<T>>, name: string): (r: Option<seq<(string, T)>>)
    ensures r.None? <==> forall i :: 0 <= i < |depts| ==> depts[i].0 != name
  {
    if depts == [] then None
    else if depts[0].0 == name then Some(depts[0].1)
    else Lookup(depts[1..], name)
  }

  /** Every class of every department, departments and classes in insertion order. */
  function Flatten<T>(depts: seq<Department<T>>): seq<(string, T)> {
    if depts == [] then [] else Flatten(depts[..|depts| - 1]) + depts[|depts| - 1].1
  }

  /** The departments the second pass visits: all but the one equal to `priority_dept`. */
  function Others<T>(depts: seq<Department<T>>, priority: Option<string>): seq<Department<T>> {
    if depts == [] then []
    else
      var last := depts[|depts| - 1];
      Others(depts[..|depts| - 1], priority) + (if Some(last.0) == priority then [] else [last])
  }

  /** What the first pass emits: the priority department's classes, when it is truthy and a key. */
  function PriorityClasses<T>(depts: seq<Department<T>>, priority: Option<string>): seq<(string, T)> {
    if Truthy(priority) && Lookup(depts, priority.value).Some? then Lookup(depts, priority.value).value else []
  }

  /** The catalog order `build_dept_info` produces. */
  function CatalogOrder<T>(depts: seq<Department<T>>, priority: Option<string>): seq<(string, T)> {
    PriorityClasses(depts, priority) + Flatten(Others(depts, priority))
  }

  /** The two passes of `build_dept_info`, appending to the list in place. */
  method BuildDeptInfo<T>(depts: seq<Department<T>>, priority: Option<string>) returns (info: seq<(string, T)>)
    ensures info == CatalogOrder(depts, priority)
  {
    info := [];
    // pass 1: the priority department, when given and present
    if Truthy(priority) && Lookup(depts, priority.value).Some? {
      info := AppendClasses(info, Lookup(depts, priority.value).value);
    }
    ghost var first := info;
    // pass 2: every other department
    var i := 0;
    while i < |depts|
      invariant 0 <= i <= |depts|
      invariant info == first + SecondPass(depts, priority, i)
    {
      var dept, classes := depts[i].0, depts[i].1;
      if Some(dept) != priority {
        AppendAssoc(first, SecondPass(depts, priority, i), classes);
        info := AppendClasses(info, classes);
      }
      i := i + 1;
    }
    SecondPassIsOthers(depts, priority, |depts|);
    assert depts[..|depts|] == depts;
  }

  lemma AppendAssoc<U>(a: seq<U>, b: seq<U>, c: seq<U>)
    ensures (a + b) + c == a + (b + c)
  {
  }

  /** What the second pass has appended after visiting the first `n` departments. */
  function SecondPass<T>(depts: seq<Department<T>>, priority: Option<string>, n: int): seq<(string, T)>
    requires 0 <= n <= |depts|
  {
    if n == 0 then []
    else if Some(depts[n - 1].0) == priority then SecondPass(depts, priority, n - 1)
    else SecondPass(depts, priority, n - 1) + depts[n - 1].1
  }

  lemma {:induction false} SecondPassIsOthers<T>(depts: seq<Department<T>>, priority: Option<string>, n: int)
    requires 0 <= n <= |depts|
    ensures SecondPass(depts, priority, n) == Flatten(Others(depts[..n], priority))
  {
    if n > 0 {
      SecondPassIsOthers(depts, priority, n - 1);
      SecondPassStep(depts, n - 1, priority);
    }
  }

  /** One department's inner loop: append each (class label, payload) in order. */
  method AppendClasses<T>(info: seq<(string, T)>, classes: seq<(string, T)>) returns (r: seq<(string, T)>)
    ensures r == info + classes
  {
    r := info;
    var k := 0;
    while k < |classes|
      invariant 0 <= k <= |classes|
      invariant r == info + classes[..k]
    {
      assert classes[..k + 1] == classes[..k] + [classes[k]];
      r := r + [classes[k]];
      k := k + 1;
    }
    assert classes[..k] == classes;
  }

  /** What the second pass adds for department `i`: nothing for the priority name, else its classes. */
  lemma SecondPassStep<T>(depts: seq<Department<T>>, i: int, priority: Option<string>)
    requires 0 <= i < |depts|
    ensures Some(depts[i].0) == priority ==> Flatten(Others(depts[..i + 1], priority)) == Flatten(Others(depts[..i], priority))
    ensures Some(depts[i].0) != priority ==> Flatten(Others(depts[..i + 1], priority)) == Flatten(Others(depts[..i], priority)) + depts[i].1
  {
    assert depts[..i + 1] == depts[..i] + [depts[i]];
    OthersAppend(depts[..i], [depts[i]], priority);
    OthersSingle(depts[i], priority);
    if Some(depts[i].0) == priority {
      assert Others(depts[..i + 1], priority) == Others(depts[..i], priority);
    } else {
      FlattenAppend(Others(depts[..i], priority), [depts[i]]);
      FlattenSingle(depts[i]);
    }
  }

  lemma {:induction false} FlattenAppend<T>(a: seq<Department<T>>, b: seq<Department<T>>)
    ensures Flatten(a + b) == Flatten(a) + Flatten(b)
  {
    if b == [] {
      assert a + b == a;
    } else {
      assert (a + b)[..|a + b| - 1] == a + b[..|b| - 1];
      FlattenAppend(a, b[..|b| - 1]);
    }
  }

  lemma FlattenSingle<T>(d: Department<T>)
    ensures Flatten([d]) == d.1
  {
    assert [d][..0] == [];
  }

  lemma OthersSingle<T>(d: Department<T>, priority: Option<string>)
    ensures Others([d], priority) == if Some(d.0) == priority then [] else [d]
  {
    assert [d][..0] == [];
  }

  lemma {:induction false} OthersAppend<T>(a: seq<Department<T>>, b: seq<Department<T>>, priority: Option<string>)
    ensures Others(a + b, priority) == Others(a, priority) + Others(b, priority)
  {
    if b == [] {
      assert a + b == a;
    } else {
      assert (a + b)[..|a + b| - 1] == a + b[..|b| - 1];
      OthersAppend(a, b[..|b| - 1], priority);
    }
  }

  /** With no department equal to `priority_dept`, the second pass keeps every department. */
  lemma {:induction false} OthersKeepsAll<T>(depts: seq<Department<T>>, priority: Option<string>)
    requires forall i :: 0 <= i < |depts| ==> Some(depts[i].0) != priority
    ensures Others(depts, priority) == depts
  {
    if depts != [] {
      OthersKeepsAll(depts[..|depts| - 1], priority);
    }
  }

  /** Department `k` splits the configuration into the ones before it, itself, and the ones after it. */
  lemma SplitAt<U>(s: seq<U>, k: int)
    requires 0 <= k < |s|
    ensures s == s[..k] + [s[k]] + s[k + 1..]
  {
  }

  lemma OthersAround<T>(depts: seq<Department<T>>, k: int, priority: Option<string>)
    requires 0 <= k < |depts|
    ensures Others(depts, priority)
         == Others(depts[..k], priority) + Others([depts[k]], priority) + Others(depts[k + 1..], priority)
  {
    var before, after := depts[..k], depts[k + 1..];
    SplitAt(depts, k);
    OthersAppend(before + [depts[k]], after, priority);
    OthersAppend(before, [depts[k]], priority);
  }

  lemma OthersKeepsPrefix<T>(depts: seq<Department<T>>, k: int, p: Option<string>)
    requires 0 <= k <= |depts|
    requires forall i :: 0 <= i < k ==> Some(depts[i].0) != p
    ensures Others(depts[..k], p) == depts[..k]
  {
    var before := depts[..k];
    assert forall i :: 0 <= i < |before| ==> Some(before[i].0) != p by {
      forall i | 0 <= i < |before| ensures Some(before[i].0) != p {
        assert before[i] == depts[i];
      }
    }
    OthersKeepsAll(before, p);
  }

  lemma OthersKeepsSuffix<T>(depts: seq<Department<T>>, k: int, p: Option<string>)
    requires 0 <= k <= |depts|
    requires forall i :: k <= i < |depts| ==> Some(depts[i].0) != p
    ensures Others(depts[k..], p) == depts[k..]
  {
    var after := depts[k..];
    assert forall i :: 0 <= i < |after| ==> Some(after[i].0) != p by {
      forall i | 0 <= i < |after| ensures Some(after[i].0) != p {
        assert after[i] == depts[k + i];
      }
    }
    OthersKeepsAll(after, p);
  }

  /** When department `k` is the only one named `priority`, the second pass drops exactly it. */
  lemma OthersDropsOnly<T>(depts: seq<Department<T>>, k: int, p: Option<string>)
    requires 0 <= k < |depts| && Some(depts[k].0) == p
    requires forall i :: 0 <= i < |depts| && i != k ==> Some(depts[i].0) != p
    ensures Others(depts, p) == depts[..k] + depts[k + 1..]
  {
    calc {
      Others(depts, p);
      == { OthersAround(depts, k, p); }
      Others(depts[..k], p) + Others([depts[k]], p) + Others(depts[k + 1..], p);
      == { OthersKeepsPrefix(depts, k, p); OthersKeepsSuffix(depts, k + 1, p); OthersSingle(depts[k], p); }
      depts[..k] + [] + depts[k + 1..];
      == { assert depts[..k] + [] == depts[..k]; }
      depts[..k] + depts[k + 1..];
    }
  }

  /** With names distinct, the second pass drops exactly the department named `priority_dept`. */
  lemma OthersDropsOne<T>(depts: seq<Department<T>>, k: int)
    requires DistinctDepartments(depts)
    requires 0 <= k < |depts|
    ensures Others(depts, Some(depts[k].0)) == depts[..k] + depts[k + 1..]
  {
    assert forall i :: 0 <= i < |depts| && i != k ==> depts[i].0 != depts[k].0;
    OthersDropsOnly(depts, k, Some(depts[k].0));
  }

  lemma {:induction false} LookupFinds<T>(depts: seq<Department<T>>, k: int)
    requires DistinctDepartments(depts)
    requires 0 <= k < |depts|
    ensures Lookup(depts, depts[k].0) == Some(depts[k].1)
  {
    if k > 0 {
      LookupFinds(depts[1..], k - 1);
    }
  }

  /**
   * A truthy `priority_dept` that is a key puts that department's classes
   * first, then every other department's classes in their original order.
   */
  lemma CatalogPriorityFirst<T>(depts: seq<Department<T>>, priority: Option<string>, k: int)
    requires DistinctDepartments(depts)
    requires 0 <= k < |depts| && priority == Some(depts[k].0) && Truthy(priority)
    ensures CatalogOrder(depts, priority) == depts[k].1 + Flatten(depts[..k] + depts[k + 1..])
  {
    LookupFinds(depts, k);
    OthersDropsOne(depts, k);
  }

  /** A `priority_dept` that is None or not a key gives the plain enumeration. */
  lemma CatalogWithoutPriority<T>(depts: seq<Department<T>>, priority: Option<string>)
    requires forall i :: 0 <= i < |depts| ==> Some(depts[i].0) != priority
    ensures CatalogOrder(depts, priority) == Flatten(depts)
  {
    OthersKeepsAll(depts, priority);
    if priority.Some? {
      assert Lookup(depts, priority.value).None?;
    }
  }

  /**
   * An empty `priority_dept` that is nevertheless a key skips the first pass
   * (it is falsy) and is skipped by the second (it is equal): that
   * department's classes are left out of the catalog.
   */
  lemma CatalogDropsFalsyKey<T>(depts: seq<Department<T>>, k: int)
    requires DistinctDepartments(depts)
    requires 0 <= k < |depts| && depts[k].0 == ""
    ensures CatalogOrder(depts, Some("")) == Flatten(depts[..k] + depts[k + 1..])
  {
    OthersDropsOne(depts, k);
  }

  lemma FlattenAround<T>(depts: seq<Department<T>>, k: int)
    requires 0 <= k < |depts|
    ensures Flatten(depts) == Flatten(depts[..k]) + depts[k].1 + Flatten(depts[k + 1..])
    ensures Flatten(depts[..k] + depts[k + 1..]) == Flatten(depts[..k]) + Flatten(depts[k + 1..])
  {
    var before, after := depts[..k], depts[k + 1..];
    SplitAt(depts, k);
    FlattenAppend(before + [depts[k]], after);
    FlattenAppend(before, [depts[k]]);
    FlattenAppend(before, after);
    FlattenSingle(depts[k]);
  }

  lemma MultisetRotate<U>(x: seq<U>, y: seq<U>, z: seq<U>)
    ensures multiset(y + (x + z)) == multiset(x + y + z)
  {
  }

  /** Taking department `k` out of the enumeration and putting it first only reorders classes. */
  lemma FlattenSplit<T>(depts: seq<Department<T>>, k: int)
    requires 0 <= k < |depts|
    ensures multiset(depts[k].1 + Flatten(depts[..k] + depts[k + 1..])) == multiset(Flatten(depts))
  {
    FlattenAround(depts, k);
    MultisetRotate(Flatten(depts[..k]), depts[k].1, Flatten(depts[k + 1..]));
  }

  /**
   * Whenever `priority_dept` is truthy or not a key, the catalog holds every
   * class of every department exactly as often as the configuration does.
   */
  lemma CatalogPermutation<T>(depts: seq<Department<T>>, priority: Option<string>)
    requires DistinctDepartments(depts)
    requires Truthy(priority) || forall i :: 0 <= i < |depts| ==> Some(depts[i].0) != priority
    ensures multiset(CatalogOrder(depts, priority)) == multiset(Flatten(depts))
  {
    if exists k :: 0 <= k < |depts| && Some(depts[k].0) == priority {
      var k :| 0 <= k < |depts| && Some(depts[k].0) == priority;
      CatalogPriorityFirst(depts, priority, k);
      FlattenSplit(depts, k);
    } else {
      CatalogWithoutPriority(depts, priority);
    }
  }
}
