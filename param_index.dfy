/** The parameter index of the crawl: for every base URL (a link up to its
    first `?`), the names of the query parameters seen on links to it, each
    name once, in the order first seen (`parameters` in main.go). */
module ParamIndex {
  import opened Text

  type Index = map<string, seq<string>>

  /** The names recorded under `base`, empty when `base` is not a key. */
  function Names(m: Index, base: string): seq<string> {
    if base in m then m[base] else []
  }

  /** No list of the index repeats a name. */
  ghost predicate DupFree(m: Index) {
    forall b :: b in m ==> NoDup(m[b])
  }

  /** Every key of the index is a base URL: it holds no `?`. */
  ghost predicate KeysAreBases(m: Index) {
    forall b :: b in m ==> '?' !in b
  }

  /** No key maps to an empty list: a key is only created together with its
      first name. */
  ghost predicate NoEmptyLists(m: Index) {
    forall b :: b in m ==> m[b] != []
  }

  /** `m'` keeps every key of `m`, and each list of `m` is a prefix of the
      list under the same key in `m'`: nothing is removed or reordered. */
  ghost predicate Extends(m: Index, m': Index) {
    forall b :: b in m ==> b in m' && m[b] <= m'[b]
  }

  lemma ExtendsTransitive(m1: Index, m2: Index, m3: Index)
    requires Extends(m1, m2) && Extends(m2, m3)
    ensures Extends(m1, m3)
  {
  }

  /** `sliceContains`: a linear scan that stops at the first match. */
  method SliceContains(slice: seq<string>, item: string) returns (found: bool)
    ensures found <==> item in slice
  {
    for i := 0 to |slice|
      invariant item !in slice[..i]
    {
      if slice[i] == item {
        return true;
      }
    }
    return false;
  }

  /** Registering one parameter name under a base URL: the key is created
      with an empty list when absent, and the name is appended unless the
      list already holds it. */
  function AddParam(m: Index, base: string, name: string): (r: Index)
    ensures base in r && name in r[base]
    ensures r.Keys == m.Keys + {base}
    ensures forall b :: b in m && b != base ==> r[b] == m[b]
    ensures name in Names(m, base) ==> r == m
    ensures name !in Names(m, base) ==> r[base] == Names(m, base) + [name]
    ensures Extends(m, r)
    ensures DupFree(m) ==> DupFree(r)
    ensures NoEmptyLists(m) ==> NoEmptyLists(r)
  {
    var m1 := if base in m then m else m[base := []];
    if name in m1[base] then m1 else m1[base := m1[base] + [name]]
  }

  /** Registering the names of one link, in the order given. */
  function AddParams(m: Index, base: string, names: seq<string>): (r: Index)
    ensures Extends(m, r)
    ensures DupFree(m) ==> DupFree(r)
    ensures NoEmptyLists(m) ==> NoEmptyLists(r)
    ensures r.Keys == if names == [] then m.Keys else m.Keys + {base}
    ensures forall b :: b in m && b != base ==> r[b] == m[b]
    ensures Elems(Names(r, base)) == Elems(Names(m, base)) + Elems(names)
    decreases |names|
  {
    if names == [] then m
    else
      var init, last := names[..|names| - 1], names[|names| - 1];
      var prev := AddParams(m, base, init);
      assert names == init + [last];
      AddParamStep(m, prev, base, init, last);
      AddParam(prev, base, last)
  }

  /** Registering one more name extends what the names before it registered. */
  lemma AddParamStep(m: Index, prev: Index, base: string, init: seq<string>, last: string)
    requires Extends(m, prev)
    requires Elems(Names(prev, base)) == Elems(Names(m, base)) + Elems(init)
    ensures Extends(m, AddParam(prev, base, last))
    ensures Elems(Names(AddParam(prev, base, last), base)) == Elems(Names(m, base)) + Elems(init + [last])
  {
    ExtendsTransitive(m, prev, AddParam(prev, base, last));
    ElemsSnoc(init, last);
    AddParamElems(prev, base, last);
  }

  /** The names of a list registered one at a time. */
  lemma AddParamsSnoc(m: Index, base: string, names: seq<string>, i: nat)
    requires i < |names|
    ensures AddParams(m, base, names[..i + 1]) == AddParam(AddParams(m, base, names[..i]), base, names[i])
  {
    assert names[..i + 1][..i] == names[..i];
  }

  /** After registering a name, the base's list holds the old names and that name. */
  lemma AddParamElems(m: Index, base: string, name: string)
    ensures Elems(Names(AddParam(m, base, name), base)) == Elems(Names(m, base)) + {name}
  {
    if name !in Names(m, base) {
      ElemsSnoc(Names(m, base), name);
    }
  }

  /** A name is in some list of the index after registering a link's names
      exactly when it was there before or it is one of the link's names
      and the list is the base's. */
  lemma AddParamsNames(m: Index, base: string, names: seq<string>, b: string, n: string)
    ensures n in Names(AddParams(m, base, names), b) <==> n in Names(m, b) || (b == base && n in names)
  {
    var r := AddParams(m, base, names);
    if b == base {
      assert n in Names(r, b) <==> n in Elems(Names(r, b));
      assert n in Names(m, b) <==> n in Elems(Names(m, b));
      assert n in names <==> n in Elems(names);
    } else {
      assert b in r <==> b in m;
    }
  }

  /** Registering a (base, name) pair that is already present changes nothing. */
  lemma AddParamIdempotent(m: Index, base: string, name: string)
    ensures AddParam(AddParam(m, base, name), base, name) == AddParam(m, base, name)
  {
  }

  /** Registering names that are all present already changes nothing. */
  lemma {:induction false} AddParamsPresent(m: Index, base: string, names: seq<string>)
    requires forall n :: n in names ==> n in Names(m, base)
    ensures AddParams(m, base, names) == m
    decreases |names|
  {
    if names != [] {
      AddParamsPresent(m, base, names[..|names| - 1]);
    }
  }

  /** Registering the names of a link twice has the effect of registering them once. */
  lemma AddParamsIdempotent(m: Index, base: string, names: seq<string>)
    ensures AddParams(AddParams(m, base, names), base, names) == AddParams(m, base, names)
  {
    var r := AddParams(m, base, names);
    forall n | n in names
      ensures n in Names(r, base)
    {
      assert n in Elems(names);
    }
    AddParamsPresent(r, base, names);
  }
}
