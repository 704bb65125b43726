/** getFields: the fields of a struct together with those promoted from its
    embedded structs: the struct's own fields first, then the whole list of
    each embedded struct in turn (depth-first), each struct type expanded at
    most once. */
module Fields {
  import opened Types

  /** A field and the struct that declares it directly. */
  datatype FieldInfo = FieldInfo(parent: TypeId, field: Field)

  /** The exported, non-embedded fields of a field list, in declaration order. */
  function Direct(fs: seq<Field>, parent: TypeId): (r: seq<FieldInfo>)
    ensures forall i :: 0 <= i < |r| ==>
      r[i].parent == parent && r[i].field in fs && r[i].field.exported && !r[i].field.anonymous
  {
    if fs == [] then []
    else
      var f := fs[|fs| - 1];
      Direct(fs[..|fs| - 1], parent) + (if f.exported && !f.anonymous then [FieldInfo(parent, f)] else [])
  }

  /** The exported, embedded fields of a field list, in declaration order. */
  function Embedded(fs: seq<Field>): (r: seq<Field>)
    ensures forall i :: 0 <= i < |r| ==> r[i].exported && r[i].anonymous
  {
    if fs == [] then []
    else
      var f := fs[|fs| - 1];
      Embedded(fs[..|fs| - 1]) + (if f.exported && f.anonymous then [f] else [])
  }

  /** Embedding keeps the field types a descriptor mentions. */
  lemma {:induction false} EmbeddedTypesIn(fs: seq<Field>, ts: map<TypeId, TypeDesc>)
    requires FieldTypesIn(fs, ts)
    ensures FieldTypesIn(Embedded(fs), ts)
    decreases |fs|
  {
    if fs != [] {
      EmbeddedTypesIn(fs[..|fs| - 1], ts);
    }
  }

  /** The reference definition of getFields: the fields of `typ` followed by
      those of its embedded structs, and the visited set afterwards. */
  function AllFields(u: Universe, typ: TypeId, visited: set<TypeId>): (r: (seq<FieldInfo>, set<TypeId>))
    requires WF(u) && typ in u.types
    ensures visited + {typ} <= r.1
    decreases u.types.Keys - visited, 0
  {
    if typ in visited then ([], visited)
    else
      var d := u.types[typ];
      ClosedAt(u, typ);
      EmbeddedTypesIn(d.fields, u.types);
      var rest := EmbeddedFields(u, Embedded(d.fields), 0, visited + {typ});
      (Direct(d.fields, typ) + rest.0, rest.1)
  }

  /** The fields contributed by the embedded fields from index `k` on,
      threading `visited` from one to the next; a pointer to a struct counts
      as the struct. */
  function EmbeddedFields(u: Universe, emb: seq<Field>, k: nat, visited: set<TypeId>): (r: (seq<FieldInfo>, set<TypeId>))
    requires WF(u) && FieldTypesIn(emb, u.types) && k <= |emb|
    ensures visited <= r.1
    decreases u.types.Keys - visited, 1, |emb| - k
  {
    if k == |emb| then ([], visited)
    else
      var nt := Strip(u, emb[k].typ);
      var first := if u.types[nt].kind == Struct then AllFields(u, nt, visited) else ([], visited);
      var rest := EmbeddedFields(u, emb, k + 1, first.1);
      (first.0 + rest.0, rest.1)
  }

  /** The first loop of getFields: the direct fields, and the embedded ones
      set aside for the second. */
  method Partition(fs: seq<Field>, parent: TypeId) returns (direct: seq<FieldInfo>, embedded: seq<Field>)
    ensures direct == Direct(fs, parent) && embedded == Embedded(fs)
  {
    direct, embedded := [], [];
    for i := 0 to |fs|
      invariant direct == Direct(fs[..i], parent)
      invariant embedded == Embedded(fs[..i])
    {
      var f := fs[i];
      assert fs[..i + 1][..i] == fs[..i];
      if !f.exported {
        continue;
      }
      if f.anonymous {
        embedded := embedded + [f];
        continue;
      }
      direct := direct + [FieldInfo(parent, f)];
    }
    assert fs[..|fs|] == fs;
  }

  /** getFields, with Go's shared `visited` map passed in and handed back. */
  method GetFields(u: Universe, typ: TypeId, visited: set<TypeId>) returns (fields: seq<FieldInfo>, visitedOut: set<TypeId>)
    requires WF(u) && typ in u.types
    ensures (fields, visitedOut) == AllFields(u, typ, visited)
    decreases u.types.Keys - visited
  {
    fields := [];
    if typ in visited {
      visitedOut := visited;
      return;
    }
    visitedOut := visited + {typ};
    var d := u.types[typ];
    var embedded;
    fields, embedded := Partition(d.fields, typ);
    AllFieldsUnfold(u, typ, visited);
    var j := 0;
    while j < |embedded|
      invariant j <= |embedded|
      invariant visited + {typ} <= visitedOut
      invariant AllFields(u, typ, visited) == Then(fields, EmbeddedFields(u, embedded, j, visitedOut))
    {
      var newTyp := Deref(u, embedded[j].typ);
      EmbeddedFieldsStep(u, embedded, j, visitedOut, fields);
      if u.types[newTyp].kind == Struct {
        Shrinks(u.types.Keys, visited, visitedOut, typ);
        var sub, v := GetFields(u, newTyp, visitedOut);
        fields := fields + sub;
        visitedOut := v;
      }
      j := j + 1;
    }
    assert fields + [] == fields;
  }

  /** AllFields of a type not yet visited: its direct fields, then what its
      embedded fields contribute. */
  lemma AllFieldsUnfold(u: Universe, typ: TypeId, visited: set<TypeId>)
    requires WF(u) && typ in u.types && typ !in visited
    ensures FieldTypesIn(Embedded(u.types[typ].fields), u.types)
    ensures AllFields(u, typ, visited)
      == Then(Direct(u.types[typ].fields, typ), EmbeddedFields(u, Embedded(u.types[typ].fields), 0, visited + {typ}))
  {
    ClosedAt(u, typ);
    EmbeddedTypesIn(u.types[typ].fields, u.types);
  }

  /** Fields found so far, followed by the outcome of the rest of the walk. */
  function Then(fields: seq<FieldInfo>, rest: (seq<FieldInfo>, set<TypeId>)): (seq<FieldInfo>, set<TypeId>) {
    (fields + rest.0, rest.1)
  }

  lemma AppendAssoc(a: seq<FieldInfo>, b: seq<FieldInfo>, c: seq<FieldInfo>)
    ensures a + (b + c) == (a + b) + c
  {
  }

  /** Visiting one more known type leaves fewer types to visit. */
  lemma Shrinks(keys: set<TypeId>, before: set<TypeId>, after: set<TypeId>, t: TypeId)
    requires t in keys && t !in before && before + {t} <= after
    ensures keys - after < keys - before
  {
    assert t in keys - before;
  }

  /** One step of EmbeddedFields: the embedded field at `k` contributes the
      fields of the struct it (through pointers) denotes, if any. */
  lemma EmbeddedFieldsStep(u: Universe, emb: seq<Field>, k: nat, visited: set<TypeId>, fields: seq<FieldInfo>)
    requires WF(u) && FieldTypesIn(emb, u.types) && k < |emb|
    ensures var nt := Strip(u, emb[k].typ);
      Then(fields, EmbeddedFields(u, emb, k, visited)) ==
        if u.types[nt].kind == Struct then
          Then(fields + AllFields(u, nt, visited).0, EmbeddedFields(u, emb, k + 1, AllFields(u, nt, visited).1))
        else Then(fields, EmbeddedFields(u, emb, k + 1, visited))
  {
    var nt := Strip(u, emb[k].typ);
    var rest := EmbeddedFields(u, emb, k + 1, visited).0;
    assert [] + rest == rest;
    if u.types[nt].kind == Struct {
      var first := AllFields(u, nt, visited);
      AppendAssoc(fields, first.0, EmbeddedFields(u, emb, k + 1, first.1).0);
    }
  }

  /** What getFields hands back: for a type already visited nothing, and
      otherwise its own direct fields first, then only exported, non-embedded
      fields, each declared by a struct that was not visited before the call
      and is visited after it. */
  lemma {:induction false} AllFieldsShape(u: Universe, typ: TypeId, visited: set<TypeId>)
    requires WF(u) && typ in u.types
    ensures typ in visited ==> AllFields(u, typ, visited) == ([], visited)
    ensures typ !in visited ==>
      var direct := Direct(u.types[typ].fields, typ);
      |direct| <= |AllFields(u, typ, visited).0| && AllFields(u, typ, visited).0[..|direct|] == direct
    ensures AllExposed(u, AllFields(u, typ, visited).0, visited, AllFields(u, typ, visited).1)
    decreases u.types.Keys - visited, 0
  {
    if typ !in visited {
      var d := u.types[typ];
      ClosedAt(u, typ);
      EmbeddedTypesIn(d.fields, u.types);
      var direct := Direct(d.fields, typ);
      var rest := EmbeddedFields(u, Embedded(d.fields), 0, visited + {typ});
      EmbeddedFieldsShape(u, Embedded(d.fields), 0, visited + {typ});
      assert AllExposed(u, direct, visited, visited + {typ});
      ExposedConcat(u, direct, rest.0, visited, visited + {typ}, rest.1);
      assert (direct + rest.0)[..|direct|] == direct;
    }
  }

  lemma {:induction false} EmbeddedFieldsShape(u: Universe, emb: seq<Field>, k: nat, visited: set<TypeId>)
    requires WF(u) && FieldTypesIn(emb, u.types) && k <= |emb|
    ensures AllExposed(u, EmbeddedFields(u, emb, k, visited).0, visited, EmbeddedFields(u, emb, k, visited).1)
    decreases u.types.Keys - visited, 1, |emb| - k
  {
    if k < |emb| {
      var nt := Strip(u, emb[k].typ);
      var first: (seq<FieldInfo>, set<TypeId>);
      if u.types[nt].kind == Struct {
        first := AllFields(u, nt, visited);
        AllFieldsShape(u, nt, visited);
      } else {
        first := ([], visited);
      }
      var rest := EmbeddedFields(u, emb, k + 1, first.1);
      EmbeddedFieldsShape(u, emb, k + 1, first.1);
      ExposedConcat(u, first.0, rest.0, visited, first.1, rest.1);
    }
  }

  /** A field getFields may report: exported, not embedded, declared directly
      by its parent, and the parent was expanded by this very call. */
  ghost predicate Exposed(u: Universe, fi: FieldInfo, before: set<TypeId>, after: set<TypeId>) {
    && fi.field.exported && !fi.field.anonymous
    && fi.parent in u.types && fi.field in u.types[fi.parent].fields
    && fi.parent in after && fi.parent !in before
  }

  ghost predicate AllExposed(u: Universe, fs: seq<FieldInfo>, before: set<TypeId>, after: set<TypeId>) {
    forall i :: 0 <= i < |fs| ==> Exposed(u, fs[i], before, after)
  }

  /** The fields reported are of types in the table. */
  lemma ExposedTypesKnown(u: Universe, fs: seq<FieldInfo>, before: set<TypeId>, after: set<TypeId>)
    requires WF(u) && AllExposed(u, fs, before, after)
    ensures forall i :: 0 <= i < |fs| ==> fs[i].field.typ in u.types
  {
    forall i | 0 <= i < |fs| ensures fs[i].field.typ in u.types {
      var d := u.types[fs[i].parent];
      ClosedAt(u, fs[i].parent);
      var j :| 0 <= j < |d.fields| && d.fields[j] == fs[i].field;
    }
  }

  /** Every field getFields reports for a struct has a type of the table. */
  lemma AllFieldTypesKnown(u: Universe, typ: TypeId)
    requires WF(u) && typ in u.types
    ensures forall i :: 0 <= i < |AllFields(u, typ, {}).0| ==> AllFields(u, typ, {}).0[i].field.typ in u.types
  {
    AllFieldsShape(u, typ, {});
    ExposedTypesKnown(u, AllFields(u, typ, {}).0, {}, AllFields(u, typ, {}).1);
  }

  /** Two consecutive expansions, the second starting where the first ended,
      together expand what lies between the first start and the second end. */
  lemma ExposedConcat(u: Universe, xs: seq<FieldInfo>, ys: seq<FieldInfo>, before: set<TypeId>, mid: set<TypeId>, after: set<TypeId>)
    requires before <= mid <= after
    requires AllExposed(u, xs, before, mid) && AllExposed(u, ys, mid, after)
    ensures AllExposed(u, xs + ys, before, after)
  {
    forall i | 0 <= i < |xs + ys| ensures Exposed(u, (xs + ys)[i], before, after) {
      if i >= |xs| {
        assert (xs + ys)[i] == ys[i - |xs|];
      }
    }
  }
}
