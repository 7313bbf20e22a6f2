/** JSON merge patches (RFC 7396) applied one after the other, refused when two of them write to
    overlapping paths. */
module JsonMergePatch {
  import opened Wrappers

  /** A JSON value; an object is a map, since the order of its members means nothing here. */
  datatype Json =
    | Null
    | Bool(b: bool)
    | Num(n: real)
    | Str(s: string)
    | Arr(items: seq<Json>)
    | Obj(fields: Object)

  type Object = map<string, Json>

  type Path = seq<string>

  // ---------- What a patch means ----------

  function Fields(j: Option<Json>): Object {
    if j.Some? && j.value.Obj? then j.value.fields else map[]
  }

  function Lookup(o: Object, k: string): Option<Json> {
    if k in o then Some(o[k]) else None
  }

  /** The MergePatch function of section 2 of RFC 7396. */
  function MergePatch(target: Option<Json>, patch: Json): Json
    decreases patch
  {
    if !patch.Obj? then patch
    else
      var base := Fields(target);
      Obj(map k | k in base.Keys + patch.fields.Keys && !(k in patch.fields && patch.fields[k].Null?) ::
            if k in patch.fields then MergePatch(Lookup(base, k), patch.fields[k]) else base[k])
  }

  function Merged(target: Object, patch: Object): Object {
    MergePatch(Some(Obj(target)), Obj(patch)).fields
  }

  /** Member k of the merge of two objects. */
  lemma MergedAt(target: Object, patch: Object, k: string)
    ensures Lookup(Merged(target, patch), k) ==
      if k !in patch then Lookup(target, k)
      else if patch[k].Null? then None
      else Some(MergePatch(Lookup(target, k), patch[k]))
  {
    assert Fields(Some(Obj(target))) == target;
  }

  lemma SameObject(a: Object, b: Object)
    requires forall k :: Lookup(a, k) == Lookup(b, k)
    ensures a == b
  {
    forall k
      ensures (k in a <==> k in b) && (k in a ==> a[k] == b[k])
    {
      assert Lookup(a, k) == Lookup(b, k);
    }
  }

  /** Merging twice is merging once. */
  lemma {:induction false} MergeIsIdempotent(target: Option<Json>, patch: Json)
    ensures MergePatch(Some(MergePatch(target, patch)), patch) == MergePatch(target, patch)
    decreases patch
  {
    if patch.Obj? {
      var p, once := patch.fields, MergePatch(target, patch).fields;
      var twice := Merged(once, p);
      assert Merged(Fields(target), p) == once;
      forall k
        ensures Lookup(twice, k) == Lookup(once, k)
      {
        MergedAt(Fields(target), p, k);
        MergedAt(once, p, k);
        if k in p && !p[k].Null? {
          MergeIsIdempotent(Lookup(Fields(target), k), p[k]);
        }
      }
      SameObject(twice, once);
    }
  }

  // ---------- What a patch writes ----------

  /** A value that collectWrittenPaths does not look into. */
  predicate IsLeaf(j: Json) { !j.Obj? || j.fields == map[] }

  /** Path p leads from value j to a leaf. */
  predicate LeadsToLeaf(j: Json, p: Path)
    decreases |p|
  {
    if p == [] then IsLeaf(j) else j.Obj? && p[0] in j.fields && LeadsToLeaf(j.fields[p[0]], p[1..])
  }

  predicate Writes(patch: Object, p: Path) {
    p != [] && LeadsToLeaf(Obj(patch), p)
  }

  predicate Overlap(a: Path, b: Path) { a <= b || b <= a }

  /** Two patches write to overlapping paths. */
  ghost predicate Clash(p: Object, q: Object) {
    exists a, b :: Writes(p, a) && Writes(q, b) && Overlap(a, b)
  }

  /** The same, member by member: whatever both touch, both only look through. */
  predicate Compatible(p: Object, q: Object)
    decreases Obj(p)
  {
    forall k :: k in p && k in q ==> !IsLeaf(p[k]) && !IsLeaf(q[k]) && Compatible(p[k].fields, q[k].fields)
  }

  /** Every value has a leaf. */
  lemma {:induction false} ALeafExists(j: Json) returns (p: Path)
    ensures LeadsToLeaf(j, p)
    decreases j
  {
    if IsLeaf(j) {
      p := [];
    } else {
      var k :| k in j.fields;
      var rest := ALeafExists(j.fields[k]);
      p := [k] + rest;
    }
  }

  lemma {:induction false} ClashingIsIncompatible(p: Object, q: Object, a: Path, b: Path)
    requires Writes(p, a) && Writes(q, b) && Overlap(a, b)
    ensures !Compatible(p, q)
    decreases |a|
  {
    var k := a[0];
    assert b[0] == k;
    if !IsLeaf(p[k]) && !IsLeaf(q[k]) {
      assert Overlap(a[1..], b[1..]);
      assert p[k] == Obj(p[k].fields) && q[k] == Obj(q[k].fields);
      assert LeadsToLeaf(p[k], a[1..]) && LeadsToLeaf(q[k], b[1..]);
      ClashingIsIncompatible(p[k].fields, q[k].fields, a[1..], b[1..]);
    }
  }

  lemma {:induction false} IncompatibleClashes(p: Object, q: Object) returns (a: Path, b: Path)
    requires !Compatible(p, q)
    ensures Writes(p, a) && Writes(q, b) && Overlap(a, b)
    decreases Obj(p)
  {
    var k :| k in p && k in q && !(!IsLeaf(p[k]) && !IsLeaf(q[k]) && Compatible(p[k].fields, q[k].fields));
    if IsLeaf(p[k]) || IsLeaf(q[k]) {
      var x := ALeafExists(p[k]);
      var y := ALeafExists(q[k]);
      a, b := [k] + x, [k] + y;
      if IsLeaf(p[k]) { LeafIsEnd(p[k], x); } else { LeafIsEnd(q[k], y); }
    } else {
      var x, y := IncompatibleClashes(p[k].fields, q[k].fields);
      a, b := [k] + x, [k] + y;
    }
  }

  lemma LeafIsEnd(j: Json, p: Path)
    requires IsLeaf(j) && LeadsToLeaf(j, p)
    ensures p == []
  {
  }

  lemma ClashIffIncompatible(p: Object, q: Object)
    ensures Clash(p, q) <==> !Compatible(p, q)
  {
    if Clash(p, q) {
      var a, b :| Writes(p, a) && Writes(q, b) && Overlap(a, b);
      ClashingIsIncompatible(p, q, a, b);
    }
    if !Compatible(p, q) {
      var a, b := IncompatibleClashes(p, q);
    }
  }

  lemma ClashIsSymmetric(p: Object, q: Object)
    ensures Clash(p, q) <==> Clash(q, p)
  {
    if Clash(p, q) {
      var a, b :| Writes(p, a) && Writes(q, b) && Overlap(a, b);
      assert Overlap(b, a);
    }
    if Clash(q, p) {
      var a, b :| Writes(q, a) && Writes(p, b) && Overlap(a, b);
      assert Overlap(b, a);
    }
  }

  /** One patch never clashes with itself: its leaves are no prefixes of each other. */
  lemma {:induction false} LeavesAreApart(j: Json, a: Path, b: Path)
    requires LeadsToLeaf(j, a) && LeadsToLeaf(j, b) && Overlap(a, b)
    ensures a == b
    decreases |a|
  {
    if a != [] && b != [] {
      assert a == [a[0]] + a[1..] && b == [b[0]] + b[1..];
      LeavesAreApart(j.fields[a[0]], a[1..], b[1..]);
    }
  }

  // ---------- Patches that do not clash commute ----------

  lemma {:induction false} MergesCommute(target: Object, p: Object, q: Object)
    requires Compatible(p, q)
    ensures Merged(Merged(target, p), q) == Merged(Merged(target, q), p)
    decreases Obj(p)
  {
    var pq, qp := Merged(Merged(target, p), q), Merged(Merged(target, q), p);
    forall k
      ensures Lookup(pq, k) == Lookup(qp, k)
    {
      MergedAt(target, p, k);
      MergedAt(target, q, k);
      MergedAt(Merged(target, p), q, k);
      MergedAt(Merged(target, q), p, k);
      if k in p && k in q {
        var t := Fields(Lookup(target, k));
        MergesCommute(t, p[k].fields, q[k].fields);
        MergeIntoFields(Lookup(target, k), p[k]);
        MergeIntoFields(Lookup(target, k), q[k]);
      }
    }
    SameObject(pq, qp);
  }

  /** Merging an object patch into anything is merging it into the object that is there. */
  lemma MergeIntoFields(target: Option<Json>, patch: Json)
    requires patch.Obj?
    ensures MergePatch(target, patch) == Obj(Merged(Fields(target), patch.fields))
  {
    assert Fields(Some(Obj(Fields(target)))) == Fields(target);
    assert patch == Obj(patch.fields);
  }

  // ---------- Lists of patches ----------

  function ApplyAll(body: Object, patches: seq<Object>): Object
    decreases |patches|
  {
    if patches == [] then body else ApplyAll(Merged(body, patches[0]), patches[1..])
  }

  ghost predicate AnyClash(patches: seq<Object>) {
    exists i, j :: 0 <= i < j < |patches| && Clash(patches[i], patches[j])
  }

  /** Whether a list of patches is accepted does not depend on its order. */
  lemma AcceptanceIgnoresOrder(s: seq<Object>, t: seq<Object>)
    requires multiset(s) == multiset(t)
    ensures AnyClash(s) <==> AnyClash(t)
  {
    if AnyClash(s) { ClashMoves(s, t); }
    if AnyClash(t) { ClashMoves(t, s); }
  }

  lemma ClashMoves(s: seq<Object>, t: seq<Object>)
    requires multiset(s) == multiset(t) && AnyClash(s)
    ensures AnyClash(t)
  {
    var i, j :| 0 <= i < j < |s| && Clash(s[i], s[j]);
    var m, n := TwoPlaces(s, t, i, j);
    ClashIsSymmetric(t[m], t[n]);
    if m > n { assert Clash(t[n], t[m]); }
  }

  function Without<T>(s: seq<T>, i: nat): seq<T>
    requires i < |s|
  {
    s[..i] + s[i + 1..]
  }

  lemma WithoutOne<T>(s: seq<T>, i: nat)
    requires i < |s|
    ensures multiset(Without(s, i)) == multiset(s) - multiset{s[i]}
  {
    assert s == s[..i] + [s[i]] + s[i + 1..];
  }

  /** Two elements of a list are found at two places of any permutation of it. */
  lemma TwoPlaces<T>(s: seq<T>, t: seq<T>, i: nat, j: nat) returns (m: nat, n: nat)
    requires multiset(s) == multiset(t) && i < j < |s|
    ensures m < |t| && n < |t| && m != n && t[m] == s[i] && t[n] == s[j]
  {
    m := PlaceOf(s, t, i);
    WithoutOne(s, i);
    WithoutOne(t, m);
    var k := PlaceOf(Without(s, i), Without(t, m), j - 1);
    n := if k < m then k else k + 1;
  }

  lemma PlaceOf<T>(s: seq<T>, t: seq<T>, i: nat) returns (m: nat)
    requires multiset(s) == multiset(t) && i < |s|
    ensures m < |t| && t[m] == s[i]
  {
    assert s[i] in multiset(s);
    assert s[i] in multiset(t);
    m :| 0 <= m < |t| && t[m] == s[i];
  }

  /** A patch that clashes with none before it may as well come first. */
  lemma {:induction false} MoveToFront(body: Object, patches: seq<Object>, i: nat)
    requires i < |patches| && !AnyClash(patches)
    ensures ApplyAll(body, patches) == ApplyAll(body, [patches[i]] + Without(patches, i))
    decreases i
  {
    var moved := [patches[i]] + Without(patches, i);
    if i == 0 {
      assert moved == patches;
    } else {
      var p, q, rest := patches[0], patches[i], patches[1..i] + patches[i + 1..];
      forall a, b | 0 <= a < b < |patches[1..]|
        ensures !Clash(patches[1..][a], patches[1..][b])
      {
        assert !Clash(patches[a + 1], patches[b + 1]);
      }
      MoveToFront(Merged(body, p), patches[1..], i - 1);
      assert [patches[1..][i - 1]] + Without(patches[1..], i - 1) == [q] + rest;
      assert ([q] + rest)[1..] == rest;
      ClashIffIncompatible(p, q);
      MergesCommute(body, p, q);
      assert moved[1..] == [p] + rest && moved[1..][1..] == rest;
    }
  }

  /** Every order of the patches gives the same object, for every body. */
  lemma {:induction false} OrderDoesNotMatter(body: Object, s: seq<Object>, t: seq<Object>)
    requires multiset(s) == multiset(t) && !AnyClash(s)
    ensures ApplyAll(body, s) == ApplyAll(body, t)
    decreases |s|
  {
    if s == [] {
      assert |multiset(t)| == 0;
    } else {
      AcceptanceIgnoresOrder(s, t);
      var m := PlaceOf(s, t, 0);
      MoveToFront(body, t, m);
      var rest := Without(t, m);
      assert ([t[m]] + rest)[1..] == rest;
      WithoutOne(t, m);
      WithoutOne(s, 0);
      assert Without(s, 0) == s[1..];
      forall a, b | 0 <= a < b < |s[1..]|
        ensures !Clash(s[1..][a], s[1..][b])
      {
        assert !Clash(s[a + 1], s[b + 1]);
      }
      OrderDoesNotMatter(Merged(body, s[0]), s[1..], rest);
    }
  }

  // ---------- What is found in the result ----------

  function ReadAt(j: Json, p: Path): Option<Json>
    decreases |p|
  {
    if p == [] then Some(j)
    else if j.Obj? && p[0] in j.fields then ReadAt(j.fields[p[0]], p[1..]) else None
  }

  /** After a merge a leaf of the patch reads back: null means absent, an empty object that there is an
      object, anything else itself. */
  predicate ReadsBack(result: Option<Json>, leaf: Json) {
    if leaf.Null? then result.None?
    else if leaf.Obj? then result.Some? && result.value.Obj?
    else result == Some(leaf)
  }

  lemma {:induction false} LeafReadsBack(target: Object, patch: Object, p: Path)
    requires Writes(patch, p)
    ensures ReadAt(Obj(patch), p).Some?
    ensures ReadsBack(ReadAt(Obj(Merged(target, patch)), p), ReadAt(Obj(patch), p).value)
    decreases |p|
  {
    var k, rest := p[0], p[1..];
    MergedAt(target, patch, k);
    assert LeadsToLeaf(patch[k], rest);
    if rest != [] {
      MergeIntoFields(Lookup(target, k), patch[k]);
      assert patch[k] == Obj(patch[k].fields);
      LeafReadsBack(Fields(Lookup(target, k)), patch[k].fields, rest);
    }
  }

  /** A path that is no prefix of a written path, and has none as a prefix, reads as before. */
  lemma {:induction false} UnrelatedIsUnchanged(target: Object, patch: Object, p: Path)
    requires forall q :: Writes(patch, q) ==> !Overlap(p, q)
    requires patch != map[]
    ensures p != [] && ReadAt(Obj(Merged(target, patch)), p) == ReadAt(Obj(target), p)
    decreases |p|
  {
    var w := ALeafExists(Obj(patch));
    assert w != [] && Writes(patch, w) && !Overlap(p, w);
    var k, rest := p[0], p[1..];
    MergedAt(target, patch, k);
    if k in patch {
      var sub := ALeafExists(patch[k]);
      assert Writes(patch, [k] + sub);
      assert p == [k] + rest;
      if IsLeaf(patch[k]) {
        LeafIsEnd(patch[k], sub);
        assert false;
      } else {
        forall q | Writes(patch[k].fields, q)
          ensures !Overlap(rest, q)
        {
          assert Writes(patch, [k] + q) && !Overlap([k] + rest, [k] + q);
        }
        MergeIntoFields(Lookup(target, k), patch[k]);
        UnrelatedIsUnchanged(Fields(Lookup(target, k)), patch[k].fields, rest);
      }
    }
  }

  lemma {:induction false} ApplyAllSnoc(body: Object, patches: seq<Object>, last: Object)
    ensures ApplyAll(body, patches + [last]) == Merged(ApplyAll(body, patches), last)
    decreases |patches|
  {
    if patches == [] {
      assert (patches + [last])[1..] == [];
    } else {
      ApplyAllSnoc(Merged(body, patches[0]), patches[1..], last);
      assert (patches + [last])[1..] == patches[1..] + [last];
    }
  }

  /** After a successful application every leaf of every patch reads back, whatever the other patches do. */
  lemma EveryLeafReadsBack(body: Object, patches: seq<Object>, i: nat, p: Path)
    requires i < |patches| && !AnyClash(patches) && Writes(patches[i], p)
    ensures ReadAt(Obj(patches[i]), p).Some?
    ensures ReadsBack(ReadAt(Obj(ApplyAll(body, patches)), p), ReadAt(Obj(patches[i]), p).value)
  {
    var others := Without(patches, i);
    WithoutOne(patches, i);
    OrderDoesNotMatter(body, patches, others + [patches[i]]);
    ApplyAllSnoc(body, others, patches[i]);
    LeafReadsBack(ApplyAll(body, others), patches[i], p);
  }

  /** What no patch writes to, above or below, is as it was. */
  lemma {:induction false} EverythingElseIsUnchanged(body: Object, patches: seq<Object>, p: Path)
    requires forall i, q :: 0 <= i < |patches| && Writes(patches[i], q) ==> !Overlap(p, q)
    ensures ReadAt(Obj(ApplyAll(body, patches)), p) == ReadAt(Obj(body), p)
    decreases |patches|
  {
    if patches != [] {
      if patches[0] == map[] {
        forall k
          ensures Lookup(Merged(body, map[]), k) == Lookup(body, k)
        {
          MergedAt(body, map[], k);
        }
        SameObject(Merged(body, map[]), body);
      } else {
        UnrelatedIsUnchanged(body, patches[0], p);
      }
      forall i, q | 0 <= i < |patches[1..]| && Writes(patches[1..][i], q)
        ensures !Overlap(p, q)
      {
        assert Writes(patches[i + 1], q);
      }
      EverythingElseIsUnchanged(Merged(body, patches[0]), patches[1..], p);
    }
  }

  // ---------- The code ----------

  datatype Named = Named(option: string, patch: Object)

  datatype Owned = Owned(option: string, path: Path)

  /** The error of applyOrderedJsonMergePatches: who wrote first, who wrote again, and where. */
  datatype Conflict = Conflict(path: Path, first: string, second: string)

  method MergeObject(target: Object, patch: Object) returns (result: Object)
    ensures result == Merged(target, patch)
    decreases Obj(patch)
  {
    result := target;
    var todo := patch.Keys;
    while todo != {}
      invariant todo <= patch.Keys
      invariant forall k :: Lookup(result, k) == if k in todo then Lookup(target, k) else Lookup(Merged(target, patch), k)
      decreases todo
    {
      var key :| key in todo;
      MergedAt(target, patch, key);
      var value := patch[key];
      if value.Null? {
        result := map k | k in result && k != key :: result[k];
      } else if value.Obj? {
        var sub := MergeObject(if key in result && result[key].Obj? then result[key].fields else map[], value.fields);
        MergeIntoFields(Lookup(target, key), value);
        assert Lookup(result, key) == Lookup(target, key);
        result := result[key := Obj(sub)];
      } else {
        result := result[key := value];
      }
      todo := todo - {key};
    }
    SameObject(result, Merged(target, patch));
  }

  predicate Distinct<T(==)>(s: seq<T>) {
    forall i, j :: 0 <= i < j < |s| ==> s[i] != s[j]
  }

  /** The paths a patch writes, each once. */
  method CollectWrittenPaths(patch: Object, prefix: Path) returns (paths: seq<Path>)
    ensures forall p :: p in paths <==> prefix <= p && Writes(patch, p[|prefix|..])
    ensures Distinct(paths)
    decreases Obj(patch)
  {
    paths := [];
    var todo := patch.Keys;
    while todo != {}
      invariant todo <= patch.Keys
      invariant forall p :: p in paths <==> prefix < p && p[|prefix|] !in todo && Writes(patch, p[|prefix|..])
      invariant Distinct(paths)
      decreases todo
    {
      var key :| key in todo;
      var path := prefix + [key];
      var value := patch[key];
      var more;
      if !IsLeaf(value) {
        more := CollectWrittenPaths(value.fields, path);
      } else {
        more := [path];
      }
      PathsUnderKey(patch, prefix, key, more);
      assert forall i :: 0 <= i < |more| ==> more[i] in more;
      assert forall i :: 0 <= i < |paths| ==> paths[i] in paths;
      paths := paths + more;
      todo := todo - {key};
    }
  }

  lemma PathsUnderKey(patch: Object, prefix: Path, key: string, more: seq<Path>)
    requires key in patch
    requires IsLeaf(patch[key]) ==> more == [prefix + [key]]
    requires !IsLeaf(patch[key]) ==>
      forall p :: p in more <==> prefix + [key] <= p && Writes(patch[key].fields, p[|prefix| + 1..])
    ensures forall p :: p in more <==> prefix < p && p[|prefix|] == key && Writes(patch, p[|prefix|..])
  {
    forall p
      ensures p in more <==> prefix < p && p[|prefix|] == key && Writes(patch, p[|prefix|..])
    {
      var under := prefix + [key];
      assert under <= p <==> prefix < p && p[|prefix|] == key by {
        assert under[..|prefix|] == prefix && under[|prefix|] == key;
        if prefix < p && p[|prefix|] == key { assert p[..|under|] == under; }
      }
      if under <= p {
        var rest := p[|prefix| + 1..];
        assert p == under + rest && p[|prefix|..] == [key] + rest && ([key] + rest)[1..] == rest;
        assert Writes(patch, p[|prefix|..]) <==> LeadsToLeaf(patch[key], rest);
        if IsLeaf(patch[key]) {
          if LeadsToLeaf(patch[key], rest) { LeafIsEnd(patch[key], rest); }
          assert p == under <==> rest == [];
        } else {
          assert patch[key] == Obj(patch[key].fields);
        }
      }
    }
  }

  method PathsOverlap(left: Path, right: Path) returns (r: bool)
    ensures r <==> Overlap(left, right)
  {
    var shared := if |left| <= |right| then |left| else |right|;
    for index := 0 to shared
      invariant left[..index] == right[..index]
    {
      if left[index] != right[index] {
        return false;
      }
    }
    return true;
  }

  method FindOverlap(owned: seq<Owned>, path: Path) returns (r: Option<Owned>)
    ensures r.Some? ==> r.value in owned && Overlap(r.value.path, path)
    ensures r.None? ==> forall o :: o in owned ==> !Overlap(o.path, path)
  {
    for i := 0 to |owned|
      invariant forall o :: o in owned[..i] ==> !Overlap(o.path, path)
    {
      var overlaps := PathsOverlap(owned[i].path, path);
      if overlaps {
        return Some(owned[i]);
      }
    }
    assert owned[..|owned|] == owned;
    return None;
  }

  function Objects(patches: seq<Named>): (s: seq<Object>)
    ensures |s| == |patches| && forall i :: 0 <= i < |s| ==> s[i] == patches[i].patch
  {
    seq(|patches|, i requires 0 <= i < |patches| => patches[i].patch)
  }

  /** owned lists what the first n patches write. */
  ghost predicate Lists(patches: seq<Named>, n: nat, owned: seq<Owned>)
    requires n <= |patches|
  {
    && (forall o :: o in owned ==> exists i :: 0 <= i < n && patches[i].option == o.option && Writes(patches[i].patch, o.path))
    && (forall i, p :: 0 <= i < n && Writes(patches[i].patch, p) ==> exists o :: o in owned && o.path == p)
  }

  lemma NoNewClash(patches: seq<Named>, n: nat, older: seq<Owned>, paths: seq<Path>)
    requires n < |patches| && Lists(patches, n, older) && !AnyClash(Objects(patches)[..n])
    requires forall p :: p in paths <==> Writes(patches[n].patch, p)
    requires forall o, k :: o in older && 0 <= k < |paths| ==> !Overlap(o.path, paths[k])
    ensures !AnyClash(Objects(patches)[..n + 1])
  {
    var s, t := Objects(patches)[..n], Objects(patches)[..n + 1];
    forall i, j {:trigger t[i], t[j]} | 0 <= i < j < n + 1
      ensures !Clash(t[i], t[j])
    {
      assert j < n ==> !Clash(s[i], s[j]);
    }
  }

  lemma ListsGrows(patches: seq<Named>, n: nat, older: seq<Owned>, paths: seq<Path>, owned: seq<Owned>)
    requires n < |patches| && Lists(patches, n, older)
    requires forall p :: p in paths <==> Writes(patches[n].patch, p)
    requires |owned| == |older| + |paths| && owned[..|older|] == older
    requires forall k :: 0 <= k < |paths| ==> owned[|older| + k] == Owned(patches[n].option, paths[k])
    ensures Lists(patches, n + 1, owned)
  {
    forall o | o in owned
      ensures exists i :: 0 <= i < n + 1 && patches[i].option == o.option && Writes(patches[i].patch, o.path)
    {
      var m :| 0 <= m < |owned| && owned[m] == o;
      if m < |older| {
        assert o == older[m];
        var i :| 0 <= i < n && patches[i].option == o.option && Writes(patches[i].patch, o.path);
      } else {
        assert paths[m - |older|] in paths;
        assert owned[|older| + (m - |older|)] == o;
      }
    }
    forall i, p | 0 <= i < n + 1 && Writes(patches[i].patch, p)
      ensures exists o :: o in owned && o.path == p
    {
      if i < n {
        var o :| o in older && o.path == p;
        assert o in owned[..|older|];
      } else {
        var k :| 0 <= k < |paths| && paths[k] == p;
        assert owned[|older| + k] in owned;
      }
    }
  }

  /** Patches i and j write to overlapping paths, j to p. */
  ghost predicate Conflicting(patches: seq<Named>, i: nat, j: nat, p: Path) {
    && i < j < |patches| && Writes(patches[j].patch, p)
    && exists q :: Writes(patches[i].patch, q) && Overlap(q, p)
  }

  lemma ConflictIsClash(patches: seq<Named>, i: nat, j: nat, p: Path)
    requires Conflicting(patches, i, j, p)
    ensures AnyClash(Objects(patches))
  {
    assert Clash(Objects(patches)[i], Objects(patches)[j]);
  }

  /** The inner loop: the first path of patch n that overlaps with something owned. */
  method OwnPaths(patches: seq<Named>, n: nat, older: seq<Owned>, paths: seq<Path>) returns (owned: Result<seq<Owned>,
          Conflict>)
    requires n < |patches| && Lists(patches, n, older) && Distinct(paths)
    requires forall p :: p in paths <==> Writes(patches[n].patch, p)
    ensures owned.Ok? ==> Lists(patches, n + 1, owned.value)
    ensures owned.Ok? ==> forall o, k :: o in older && 0 <= k < |paths| ==> !Overlap(o.path, paths[k])
    ensures owned.Err? ==> owned.error.second == patches[n].option
    ensures owned.Err? ==>
      exists i :: 0 <= i < n && owned.error.first == patches[i].option && Conflicting(patches, i, n, owned.error.path)
  {
    var list := older;
    for j := 0 to |paths|
      invariant |list| == |older| + j && list[..|older|] == older
      invariant forall k :: 0 <= k < j ==> list[|older| + k] == Owned(patches[n].option, paths[k])
      invariant forall o, k :: o in older && 0 <= k < j ==> !Overlap(o.path, paths[k])
    {
      assert paths[j] in paths;
      var conflict := FindOverlap(list, paths[j]);
      if conflict.Some? {
        var o := conflict.value;
        OwnPathsAreApart(patches[n], older, paths, j, list, o);
        var i :| 0 <= i < n && patches[i].option == o.option && Writes(patches[i].patch, o.path);
        assert Conflicting(patches, i, n, paths[j]);
        return Err(Conflict(paths[j], o.option, patches[n].option));
      }
      assert forall o :: o in older ==> o in list[..|older|];
      list := list + [Owned(patches[n].option, paths[j])];
    }
    ListsGrows(patches, n, older, paths, list);
    return Ok(list);
  }

  lemma OwnPathsAreApart(patch: Named, older: seq<Owned>, paths: seq<Path>, j: nat, list: seq<Owned>, o: Owned)
    requires j < |paths| && Distinct(paths) && forall p :: p in paths <==> Writes(patch.patch, p)
    requires |list| == |older| + j && list[..|older|] == older
    requires forall k :: 0 <= k < j ==> list[|older| + k] == Owned(patch.option, paths[k])
    requires o in list && Overlap(o.path, paths[j])
    ensures o in older
  {
    var m :| 0 <= m < |list| && list[m] == o;
    if m < |older| {
      assert o == older[m];
    } else {
      assert list[|older| + (m - |older|)] == o;
      assert paths[m - |older|] in paths && paths[j] in paths;
      LeavesAreApart(Obj(patch.patch), o.path, paths[j]);
    }
  }

  /** applyOrderedJsonMergePatches. It fails exactly when two different patches write to overlapping paths,
      and then names such a pair; otherwise the result is that of merging them one after the other. */
  method ApplyOrderedJsonMergePatches(body: Object, patches: seq<Named>) returns (r: Result<Object, Conflict>)
    ensures r.Err? <==> AnyClash(Objects(patches))
    ensures r.Ok? ==> r.value == ApplyAll(body, Objects(patches))
    ensures r.Err? ==> exists i: nat, j: nat ::
      Conflicting(patches, i, j, r.error.path) && r.error.first == patches[i].option && r.error.second == patches[j].option
  {
    var owned: seq<Owned> := [];
    var result := body;
    ghost var objects := Objects(patches);
    for n := 0 to |patches|
      invariant Lists(patches, n, owned)
      invariant !AnyClash(objects[..n])
      invariant result == ApplyAll(body, objects[..n])
    {
      var paths := CollectWrittenPaths(patches[n].patch, []);
      assert forall p: Path {:trigger Writes(patches[n].patch, p)} :: p[0..] == p;
      var more := OwnPaths(patches, n, owned, paths);
      if more.Err? {
        ghost var i :| 0 <= i < n && more.error.first == patches[i].option && Conflicting(patches, i, n, more.error.path);
        ConflictIsClash(patches, i, n, more.error.path);
        return Err(more.error);
      }
      NoNewClash(patches, n, owned, paths);
      owned := more.value;
      result := MergeObject(result, patches[n].patch);
      ApplyAllSnoc(body, objects[..n], patches[n].patch);
      assert objects[..n + 1] == objects[..n] + [patches[n].patch];
    }
    assert objects[..|patches|] == objects;
    return Ok(result);
  }
}
