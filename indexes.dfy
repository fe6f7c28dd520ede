/** The lookup structures that `loadNacebelData` in lib/nacebelData.ts
    builds from the parsed records: a map from code to record, a map from
    dot-free identifier to record, and a map from a parent code to the codes
    of its children. */
module Indexes {
  import opened Wrappers
  import opened Records

  function CodeKey(r: Record): string { r.code }

  function IdKey(r: Record): string { r.idWithoutDots }

  /** A `Map` filled by `set(key(r), r)` for every record in turn. */
  function IndexBy(rs: seq<Record>, key: Record -> string): map<string, Record>
  {
    if rs == [] then map[]
    else IndexBy(rs[..|rs| - 1], key)[key(rs[|rs| - 1]) := rs[|rs| - 1]]
  }

  /** Every record's key is in the map, and only those. */
  lemma {:induction false} IndexByKeys(rs: seq<Record>, key: Record -> string, k: string)
    ensures k in IndexBy(rs, key) <==> exists i :: 0 <= i < |rs| && key(rs[i]) == k
  {
    if rs != [] {
      var front := rs[..|rs| - 1];
      IndexByKeys(front, key, k);
      if exists i :: 0 <= i < |front| && key(front[i]) == k {
        var i :| 0 <= i < |front| && key(front[i]) == k;
        assert key(rs[i]) == k;
      }
      if exists i :: 0 <= i < |rs| && key(rs[i]) == k {
        var i :| 0 <= i < |rs| && key(rs[i]) == k;
        if i < |front| {
          assert key(front[i]) == k;
        }
      }
    }
  }

  /** Duplicate keys: the entry is the last record that has the key. */
  lemma {:induction false} IndexByLastWins(rs: seq<Record>, key: Record -> string, i: int)
    requires 0 <= i < |rs|
    requires forall j :: i < j < |rs| ==> key(rs[j]) != key(rs[i])
    ensures key(rs[i]) in IndexBy(rs, key)
    ensures IndexBy(rs, key)[key(rs[i])] == rs[i]
  {
    var front := rs[..|rs| - 1];
    if i < |rs| - 1 {
      assert rs[i] == front[i];
      assert forall j :: i < j < |front| ==> key(front[j]) != key(front[i]) by {
        forall j | i < j < |front| ensures key(front[j]) != key(front[i]) {
          assert front[j] == rs[j];
        }
      }
      IndexByLastWins(front, key, i);
    }
  }

  /** `code.substring(0, n)`, which stops at the end of a shorter code. */
  function Prefix(s: string, n: nat): (p: string)
    ensures p <= s
    ensures |s| >= n ==> |p| == n
    ensures |s| < n ==> p == s
  {
    if |s| <= n then s else s[..n]
  }

  /** The parent a record claims: the first 2, 5 or 8 characters of its code
      for level 3, 4 or 5; none for any other level. */
  function ParentCode(r: Record): (p: Option<string>)
    ensures p.Some? <==> 3 <= r.level <= 5
  {
    if r.level == 3 then Some(Prefix(r.code, 2))
    else if r.level == 4 then Some(Prefix(r.code, 5))
    else if r.level == 5 then Some(Prefix(r.code, 8))
    else None
  }

  /** `parentCode && codeMap.has(parentCode)`: the claimed parent is not the
      (falsy) empty string and is a known code. */
  predicate LinkedTo(r: Record, codeMap: map<string, Record>, p: string)
  {
    ParentCode(r) == Some(p) && p != [] && p in codeMap
  }

  /** The child map as the second `forEach` fills it: a linked record's code
      is appended to its parent's list, which is created empty on first use. */
  function ChildrenIndex(rs: seq<Record>, codeMap: map<string, Record>): map<string, seq<string>>
  {
    if rs == [] then map[]
    else
      var m := ChildrenIndex(rs[..|rs| - 1], codeMap);
      var r := rs[|rs| - 1];
      var parent := ParentCode(r);
      if parent.Some? && LinkedTo(r, codeMap, parent.value) then
        var p := parent.value;
        m[p := (if p in m then m[p] else []) + [r.code]]
      else m
  }

  /** The reference view for one parent: the codes of the records linked to
      it, in input order. */
  function ChildrenOf(rs: seq<Record>, codeMap: map<string, Record>, p: string): seq<string>
  {
    if rs == [] then []
    else
      var r := rs[|rs| - 1];
      ChildrenOf(rs[..|rs| - 1], codeMap, p) + (if LinkedTo(r, codeMap, p) then [r.code] else [])
  }

  /** A parent has an entry exactly when it has a linked child, and the
      entry lists exactly its linked children in input order. */
  lemma {:induction false} ChildrenIndexIsChildrenOf(rs: seq<Record>, codeMap: map<string, Record>, p: string)
    ensures p in ChildrenIndex(rs, codeMap) <==> ChildrenOf(rs, codeMap, p) != []
    ensures p in ChildrenIndex(rs, codeMap) ==> ChildrenIndex(rs, codeMap)[p] == ChildrenOf(rs, codeMap, p)
  {
    if rs != [] {
      ChildrenIndexIsChildrenOf(rs[..|rs| - 1], codeMap, p);
    }
  }

  /** Child lists keep input order: the children found in two runs of
      records are those of the first run followed by those of the second. */
  lemma {:induction false} ChildrenInOrder(a: seq<Record>, b: seq<Record>, codeMap: map<string, Record>, p: string)
    ensures ChildrenOf(a + b, codeMap, p) == ChildrenOf(a, codeMap, p) + ChildrenOf(b, codeMap, p)
  {
    if b == [] {
      assert a + b == a;
    } else {
      ChildrenInOrder(a, b[..|b| - 1], codeMap, p);
      assert (a + b)[..|a + b| - 1] == a + b[..|b| - 1];
      assert (a + b)[|a + b| - 1] == b[|b| - 1];
    }
  }

  /** Every listed child comes from a record of level 3, 4 or 5 whose code
      starts with the parent code, and the parent is a known code. */
  lemma {:induction false} ChildrenAreLinked(rs: seq<Record>, codeMap: map<string, Record>, p: string, c: string)
    requires c in ChildrenOf(rs, codeMap, p)
    ensures p in codeMap && p != []
    ensures exists r :: r in rs && r.code == c && 3 <= r.level <= 5 && p <= r.code && LinkedTo(r, codeMap, p)
  {
    var front := rs[..|rs| - 1];
    var r := rs[|rs| - 1];
    if c in ChildrenOf(front, codeMap, p) {
      ChildrenAreLinked(front, codeMap, p, c);
      var r' :| r' in front && r'.code == c && 3 <= r'.level <= 5 && p <= r'.code && LinkedTo(r', codeMap, p);
      assert r' in rs;
    } else {
      assert LinkedTo(r, codeMap, p) && r.code == c;
      assert r in rs;
    }
  }

  /** Every linked record is listed under its parent. */
  lemma {:induction false} LinkedChildListed(rs: seq<Record>, codeMap: map<string, Record>, p: string, i: int)
    requires 0 <= i < |rs|
    requires LinkedTo(rs[i], codeMap, p)
    ensures p in ChildrenIndex(rs, codeMap)
    ensures rs[i].code in ChildrenIndex(rs, codeMap)[p]
  {
    ChildrenIndexIsChildrenOf(rs, codeMap, p);
    ChildOfListed(rs, codeMap, p, i);
  }

  lemma {:induction false} ChildOfListed(rs: seq<Record>, codeMap: map<string, Record>, p: string, i: int)
    requires 0 <= i < |rs|
    requires LinkedTo(rs[i], codeMap, p)
    ensures rs[i].code in ChildrenOf(rs, codeMap, p)
  {
    if i < |rs| - 1 {
      var front := rs[..|rs| - 1];
      assert front[i] == rs[i];
      ChildOfListed(front, codeMap, p, i);
    }
  }

  /** The two `forEach` passes of `loadNacebelData`: the first fills the code
      and id maps, the second links each record to its parent. */
  method BuildIndexes(parsed: seq<Record>)
    returns (codeMap: map<string, Record>, idMap: map<string, Record>, childrenMap: map<string, seq<string>>)
    ensures codeMap == IndexBy(parsed, CodeKey)
    ensures idMap == IndexBy(parsed, IdKey)
    ensures childrenMap == ChildrenIndex(parsed, codeMap)
  {
    codeMap := map[];
    idMap := map[];
    for i := 0 to |parsed|
      invariant codeMap == IndexBy(parsed[..i], CodeKey)
      invariant idMap == IndexBy(parsed[..i], IdKey)
    {
      assert parsed[..i + 1][..i] == parsed[..i];
      codeMap := codeMap[parsed[i].code := parsed[i]];
      idMap := idMap[parsed[i].idWithoutDots := parsed[i]];
    }
    assert parsed[..|parsed|] == parsed;
    childrenMap := LinkChildren(parsed, codeMap);
  }

  /** The second pass: every record of level 3, 4 or 5 whose parent code is
      non-empty and present is appended to its parent's list. */
  method LinkChildren(parsed: seq<Record>, codeMap: map<string, Record>) returns (childrenMap: map<string, seq<string>>)
    ensures childrenMap == ChildrenIndex(parsed, codeMap)
  {
    childrenMap := map[];
    for i := 0 to |parsed|
      invariant childrenMap == ChildrenIndex(parsed[..i], codeMap)
    {
      assert parsed[..i + 1][..i] == parsed[..i];
      var currentCode := parsed[i].code;
      var currentLevel := parsed[i].level;
      var parentCode: Option<string> := None;
      if currentLevel == 3 {
        parentCode := Some(Prefix(currentCode, 2));
      } else if currentLevel == 4 {
        parentCode := Some(Prefix(currentCode, 5));
      } else if currentLevel == 5 {
        parentCode := Some(Prefix(currentCode, 8));
      }
      if parentCode.Some? && parentCode.value != [] && parentCode.value in codeMap {
        var p := parentCode.value;
        if p !in childrenMap {
          childrenMap := childrenMap[p := []];
        }
        childrenMap := childrenMap[p := childrenMap[p] + [currentCode]];
      }
    }
    assert parsed[..|parsed|] == parsed;
  }
}
