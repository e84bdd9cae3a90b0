/**
 What merging keeps: base documents, resolving references, and the tree that a
 reference stands for.
 */
module MergeMeaning {
  import opened Json
  import opened Merge

  // ---------- nothing already merged changes ----------

  ghost predicate Grows(a: Components, b: Components) {
    forall s: Section, name :: name in Named(a, s) ==> name in Named(b, s) && Named(b, s)[name] == Named(a, s)[name]
  }

  lemma StepGrows(merged: Document, extra: Document, inherited: set<string>)
    ensures var result := MergeOne(merged, extra, inherited);
      && Grows(merged.components, result.components)
      && forall p :: p in merged.paths ==> p in result.paths && result.paths[p] == merged.paths[p]
  {
    hide ExtraRenames;
  }

  /** However many more documents are merged, earlier paths and components stay as they are. */
  lemma {:induction false} MergeGrows(base: Document, extras: seq<Document>, i: nat, inherited: set<string>)
    requires i <= |extras|
    ensures var before, after := MergeAll(base, extras[..i], inherited), MergeAll(base, extras, inherited);
      && Grows(before.components, after.components)
      && forall p :: p in before.paths ==> p in after.paths && after.paths[p] == before.paths[p]
    decreases |extras|
  {
    hide MergeOne;
    if i == |extras| {
      assert extras[..i] == extras;
    } else {
      var last := |extras| - 1;
      MergeGrows(base, extras[..last], i, inherited);
      assert extras[..last][..i] == extras[..i];
      StepGrows(MergeAll(base, extras[..last], inherited), extras[last], inherited);
    }
  }

  lemma BaseKept(base: Document, extras: seq<Document>, inherited: set<string>)
    ensures var merged := MergeAll(base, extras, inherited);
      && Grows(base.components, merged.components)
      && forall p :: p in base.paths ==> p in merged.paths && merged.paths[p] == base.paths[p]
  {
    MergeGrows(base, extras, 0, inherited);
    assert extras[..0] == [];
  }

  // ---------- rewriting is idempotent ----------

  /** Every new name is one that is not renamed itself. */
  ghost predicate Settled(r: Renames) {
    forall s, name :: s in r && name in r[s] ==> r[s][name] !in r[s]
  }

  lemma RenamesSettled(target: Components, extra: Components, inherited: set<string>)
    ensures Settled(ExtraRenames(target, extra, inherited))
  {
    hide SectionRenames, ExtraRenames, RewriteAll;
    var r := ExtraRenames(target, extra, inherited);
    forall s, name | s in r && name in r[s] ensures r[s][name] !in r[s] {
      RenamesExplained(target, extra, inherited, s);
      SectionSettled(Named(target, s), RewriteAll(Named(extra, s), Earlier(r, s)), inherited, name);
    }
  }

  lemma SectionSettled(target: ComponentMap, source: ComponentMap, inherited: set<string>, name: string)
    requires name in SectionRenames(target, source, inherited)
    ensures var r := SectionRenames(target, source, inherited);
      name in source && r[name] !in source && r[name] !in r
  {
    RenamingInjective(target, source, inherited, name, name);
  }

  lemma NewRefIdempotent(ref: string, r: Renames)
    requires Settled(r)
    ensures NewRef(NewRef(ref, r), r) == NewRef(ref, r)
  {
    var s := SectionOf(ref);
    if s.Some? && s.value in r && RefName(ref, s.value).value in r[s.value] {
      SectionOfRefTo(s.value, r[s.value][RefName(ref, s.value).value]);
    }
  }

  /** Rewriting a node twice, as when two places of a document share it, changes nothing more. */
  lemma {:induction false} RewriteIdempotent(j: Json, r: Renames)
    requires Settled(r)
    ensures Rewrite(Rewrite(j, r), r) == Rewrite(j, r)
  {
    match j
    case Arr(items) =>
      forall i | 0 <= i < |items| ensures Rewrite(Rewrite(items[i], r), r) == Rewrite(items[i], r) {
        RewriteIdempotent(items[i], r);
      }
    case Obj(f) =>
      forall k | k in f ensures RewriteField(k, RewriteField(k, f[k], r), r) == RewriteField(k, f[k], r) {
        RewriteKeepsStrings(f[k], r);
        if f[k].Str? {
          NewRefIdempotent(f[k].s, r);
        }
        RewriteIdempotent(f[k], r);
      }
    case _ =>
  }

  // ---------- references resolve ----------

  ghost predicate RefResolves(ref: string, c: Components) {
    forall s :: RefName(ref, s).Some? ==> RefName(ref, s).value in Named(c, s)
  }

  /** Every reference of `j` into one of the four sections names a component. */
  ghost predicate Resolves(j: Json, c: Components) {
    match j
    case Arr(items) => forall i :: 0 <= i < |items| ==> Resolves(items[i], c)
    case Obj(f) =>
      && (forall k :: k in f ==> Resolves(f[k], c))
      && ("$ref" in f && f["$ref"].Str? ==> RefResolves(f["$ref"].s, c))
    case _ => true
  }

  ghost predicate ClosedComponents(c: Components) {
    forall s: Section, name :: name in Named(c, s) ==> Resolves(Named(c, s)[name], c)
  }

  ghost predicate Closed(d: Document) {
    && (forall p :: p in d.paths ==> Resolves(d.paths[p], d.components))
    && ClosedComponents(d.components)
  }

  lemma {:induction false} ResolvesGrows(j: Json, a: Components, b: Components)
    requires Resolves(j, a) && Grows(a, b)
    ensures Resolves(j, b)
  {
    match j
    case Arr(items) =>
      forall i | 0 <= i < |items| ensures Resolves(items[i], b) {
        ResolvesGrows(items[i], a, b);
      }
    case Obj(f) =>
      forall k | k in f ensures Resolves(f[k], b) {
        ResolvesGrows(f[k], a, b);
      }
    case _ =>
  }

  /** Each component of `extra` has an entry of `target` under its final name. */
  ghost predicate Places(extra: Components, target: Components, r: Renames) {
    && (forall s: Section, name :: name in Named(extra, s) ==> s in r && Final(r[s], name) in Named(target, s))
    && (forall s, name :: s in r && name in r[s] ==> name in Named(extra, s))
  }

  lemma NewRefResolves(ref: string, extra: Components, target: Components, r: Renames)
    requires RefResolves(ref, extra) && Places(extra, target, r)
    ensures RefResolves(NewRef(ref, r), target)
  {
    var s := SectionOf(ref);
    forall t | RefName(NewRef(ref, r), t).Some?
      ensures RefName(NewRef(ref, r), t).value in Named(target, t)
    {
      SectionOfRef(NewRef(ref, r), t);
      if s.Some? {
        var name := RefName(ref, s.value).value;
        assert name in Named(extra, s.value);
        SectionOfRefTo(s.value, Final(r[s.value], name));
        RefToOfRefName(ref, s.value);
      }
    }
  }

  lemma {:induction false} RewriteResolves(j: Json, extra: Components, target: Components, r: Renames)
    requires Resolves(j, extra) && Places(extra, target, r)
    ensures Resolves(Rewrite(j, r), target)
  {
    match j
    case Arr(items) =>
      forall i | 0 <= i < |items| ensures Resolves(Rewrite(items[i], r), target) {
        RewriteResolves(items[i], extra, target, r);
      }
    case Obj(f) =>
      var g := Rewrite(j, r).fields;
      forall k | k in f ensures Resolves(g[k], target) {
        assert g[k] == RewriteField(k, f[k], r);
        RewriteResolves(f[k], extra, target, r);
      }
      if "$ref" in g && g["$ref"].Str? {
        assert g["$ref"] == RewriteField("$ref", f["$ref"], r);
        RewriteKeepsStrings(f["$ref"], r);
        NewRefResolves(f["$ref"].s, extra, target, r);
      }
    case _ =>
  }

  lemma ExtraPlaced(merged: Document, extra: Document, inherited: set<string>)
    ensures Places(extra.components, MergeOne(merged, extra, inherited).components,
                   ExtraRenames(merged.components, extra.components, inherited))
  {
    hide MergeOne, ExtraRenames, SectionRenames, RewriteAll;
    var r := ExtraRenames(merged.components, extra.components, inherited);
    forall s: Section, name | name in Named(extra.components, s)
      ensures s in r && Final(r[s], name) in Named(MergeOne(merged, extra, inherited).components, s)
    {
      ComponentMerged(merged, extra, inherited, s, name);
    }
    forall s, name | s in r && name in r[s] ensures name in Named(extra.components, s) {
      RenamesExplained(merged.components, extra.components, inherited, s);
      SectionSettled(Named(merged.components, s), RewriteAll(Named(extra.components, s), Earlier(r, s)),
                     inherited, name);
      RewriteAllKeys(Named(extra.components, s), Earlier(r, s));
    }
  }

  lemma RewriteAllKeys(m: ComponentMap, r: Renames)
    ensures RewriteAll(m, r).Keys == m.Keys
  {
  }

  lemma StepClosed(merged: Document, extra: Document, inherited: set<string>)
    requires Closed(merged) && Closed(extra)
    ensures Closed(MergeOne(merged, extra, inherited))
  {
    hide ExtraRenames;
    var result := MergeOne(merged, extra, inherited);
    var r := ExtraRenames(merged.components, extra.components, inherited);
    StepGrows(merged, extra, inherited);
    ExtraPlaced(merged, extra, inherited);
    forall p | p in result.paths ensures Resolves(result.paths[p], result.components) {
      if p in merged.paths {
        ResolvesGrows(merged.paths[p], merged.components, result.components);
      } else {
        RewriteResolves(extra.paths[p], extra.components, result.components, r);
      }
    }
    forall s: Section, final | final in Named(result.components, s)
      ensures Resolves(Named(result.components, s)[final], result.components)
    {
      if final in Named(merged.components, s) {
        ResolvesGrows(Named(merged.components, s)[final], merged.components, result.components);
      } else {
        var name := SourceName(extra.components[s], r[s], final);
        RewriteResolves(Named(extra.components, s)[name], extra.components, result.components, r);
      }
    }
  }

  /** Merging documents whose references resolve gives a document whose references resolve. */
  lemma {:induction false} MergeClosed(base: Document, extras: seq<Document>, inherited: set<string>)
    requires Closed(base) && forall i :: 0 <= i < |extras| ==> Closed(extras[i])
    ensures Closed(MergeAll(base, extras, inherited))
    decreases |extras|
  {
    hide MergeOne, Closed;
    if extras != [] {
      var last := |extras| - 1;
      MergeClosed(base, extras[..last], inherited);
      StepClosed(MergeAll(base, extras[..last], inherited), extras[last], inherited);
    }
  }

  // ---------- where a path comes from ----------

  /** Path `p` is new with document `i`: neither the base nor an earlier document has it. */
  predicate Owner(base: Document, extras: seq<Document>, inherited: set<string>, p: string, i: nat)
    requires i < |extras|
  {
    && p !in base.paths && p !in inherited && p in extras[i].paths
    && forall j :: 0 <= j < i ==> p !in extras[j].paths
  }

  lemma {:induction false} PathsExactly(base: Document, extras: seq<Document>, inherited: set<string>, p: string)
    ensures p in MergeAll(base, extras, inherited).paths <==>
      p in base.paths || (p !in inherited && exists j :: 0 <= j < |extras| && p in extras[j].paths)
    decreases |extras|
  {
    hide ExtraRenames;
    if extras != [] {
      PathsExactly(base, extras[..|extras| - 1], inherited, p);
    }
  }

  /** The merged document seen by extra document `i`, and the renames made for it. */
  ghost function Seen(base: Document, extras: seq<Document>, inherited: set<string>, i: nat): Document
    requires i < |extras|
  {
    MergeAll(base, extras[..i], inherited)
  }

  ghost function RenamesAt(base: Document, extras: seq<Document>, inherited: set<string>, i: nat): Renames
    requires i < |extras|
  {
    ExtraRenames(Seen(base, extras, inherited, i).components, extras[i].components, inherited)
  }

  /** A new path is kept, with its references rewritten by its own document's renames. */
  lemma OwnedPath(base: Document, extras: seq<Document>, inherited: set<string>, p: string, i: nat)
    requires i < |extras| && Owner(base, extras, inherited, p, i)
    ensures var merged, after := MergeAll(base, extras, inherited), MergeAll(base, extras[..i + 1], inherited);
      && p in merged.paths
      && merged.paths[p] == Rewrite(extras[i].paths[p], RenamesAt(base, extras, inherited, i))
      && after == MergeOne(Seen(base, extras, inherited, i), extras[i], inherited)
      && Grows(after.components, merged.components)
  {
    hide ExtraRenames, Rewrite;
    PathsExactly(base, extras[..i], inherited, p);
    assert extras[..i + 1][..i] == extras[..i];
    MergeGrows(base, extras, i + 1, inherited);
  }

  /** The references of a kept path resolve if those of its own document do, whatever else is merged. */
  lemma OwnedPathResolves(base: Document, extras: seq<Document>, inherited: set<string>, p: string, i: nat)
    requires i < |extras| && Owner(base, extras, inherited, p, i)
    requires Closed(extras[i])
    ensures var merged := MergeAll(base, extras, inherited);
      p in merged.paths && Resolves(merged.paths[p], merged.components)
  {
    hide ExtraRenames, Rewrite, MergeOne;
    var r := RenamesAt(base, extras, inherited, i);
    var after := MergeOne(Seen(base, extras, inherited, i), extras[i], inherited);
    OwnedPath(base, extras, inherited, p, i);
    ExtraPlaced(Seen(base, extras, inherited, i), extras[i], inherited);
    RewriteResolves(extras[i].paths[p], extras[i].components, after.components, r);
    ResolvesGrows(Rewrite(extras[i].paths[p], r), after.components, MergeAll(base, extras, inherited).components);
  }

  // ---------- de-duplicated components ----------

  predicate Renamed(ref: string, r: Renames) {
    match SectionOf(ref)
    case None => false
    case Some(s) => s in r && RefName(ref, s).value in r[s]
  }

  /** No reference of `j` is to a renamed component. */
  predicate Untouched(j: Json, r: Renames) {
    match j
    case Arr(items) => forall i :: 0 <= i < |items| ==> Untouched(items[i], r)
    case Obj(f) =>
      && (forall k :: k in f ==> Untouched(f[k], r))
      && ("$ref" in f && f["$ref"].Str? ==> !Renamed(f["$ref"].s, r))
    case _ => true
  }

  lemma NewRefFixed(ref: string, r: Renames)
    requires Settled(r)
    ensures NewRef(ref, r) == ref <==> !Renamed(ref, r)
  {
    var s := SectionOf(ref);
    if Renamed(ref, r) {
      SectionOfRefTo(s.value, r[s.value][RefName(ref, s.value).value]);
    }
  }

  /** Rewriting leaves a text as it is exactly when the text refers to nothing that is renamed. */
  lemma {:induction false} RewriteFixed(j: Json, r: Renames)
    requires Settled(r)
    ensures Rewrite(j, r) == j <==> Untouched(j, r)
  {
    match j
    case Arr(items) =>
      forall i | 0 <= i < |items| ensures Rewrite(items[i], r) == items[i] <==> Untouched(items[i], r) {
        RewriteFixed(items[i], r);
      }
      assert Rewrite(j, r) == j ==> Rewrite(j, r).items == items;
    case Obj(f) =>
      var g := Rewrite(j, r).fields;
      forall k | k in f
        ensures g[k] == f[k] <==> Untouched(f[k], r) && (k == "$ref" && f[k].Str? ==> !Renamed(f[k].s, r))
      {
        RewriteFixed(f[k], r);
        assert g[k] == RewriteField(k, f[k], r);
        if k == "$ref" && f[k].Str? {
          NewRefFixed(f[k].s, r);
        }
      }
      assert g == f <==> forall k :: k in f ==> g[k] == f[k];
    case _ =>
  }

  /**
   No component of `extra` that an equal component of `merged` stands for
   refers to one that is renamed in its own or a later section: those are the
   renames made after the texts were compared.
   */
  ghost predicate DedupSafe(merged: Components, extra: Components, inherited: set<string>) {
    var r := ExtraRenames(merged, extra, inherited);
    forall s: Section, name ::
      name in Named(extra, s) && name in Named(merged, s) && s in r && name !in r[s] ==>
        Untouched(Named(merged, s)[name], Later(r, s))
  }

  /** Each component of `extra` has its rewritten text in `target`, under its final name. */
  ghost predicate Represents(extra: Components, target: Components, r: Renames) {
    && Places(extra, target, r)
    && forall s: Section, name :: name in Named(extra, s) ==>
         Named(target, s)[Final(r[s], name)] == Rewrite(Named(extra, s)[name], r)
  }

  lemma ComponentRepresented(merged: Document, extra: Document, inherited: set<string>, s: Section, name: string)
    requires name in Named(extra.components, s)
    ensures var r := ExtraRenames(merged.components, extra.components, inherited);
      var result := MergeOne(merged, extra, inherited);
      && s in r && Final(r[s], name) in Named(result.components, s)
      && (Named(result.components, s)[Final(r[s], name)] == Rewrite(Named(extra.components, s)[name], r) <==>
           (name in Named(merged.components, s) && name !in r[s] ==>
             Untouched(Named(merged.components, s)[name], Later(r, s))))
  {
    hide MergeOne, ExtraRenames, SectionRenames, RewriteAll, Rewrite;
    var r := ExtraRenames(merged.components, extra.components, inherited);
    ComponentMerged(merged, extra, inherited, s, name);
    RenamesSettled(merged.components, extra.components, inherited);
    var text := Named(extra.components, s)[name];
    if Final(r[s], name) in Named(merged.components, s) {
      RewriteCompose(text, Earlier(r, s), Later(r, s));
      assert Earlier(r, s) + Later(r, s) == r;
      RewriteFixed(Rewrite(text, Earlier(r, s)), Later(r, s));
    }
  }

  /** Every component keeps its text, up to renaming, exactly when the de-duplicated ones are safe. */
  lemma RepresentsExactly(merged: Document, extra: Document, inherited: set<string>)
    ensures Represents(extra.components, MergeOne(merged, extra, inherited).components,
                       ExtraRenames(merged.components, extra.components, inherited))
       <==> DedupSafe(merged.components, extra.components, inherited)
  {
    hide MergeOne, ExtraRenames, SectionRenames, RewriteAll, Rewrite, Untouched;
    ExtraPlaced(merged, extra, inherited);
    var r := ExtraRenames(merged.components, extra.components, inherited);
    var result := MergeOne(merged, extra, inherited);
    forall s: Section, name | name in Named(extra.components, s)
      ensures Named(result.components, s)[Final(r[s], name)] == Rewrite(Named(extra.components, s)[name], r) <==>
           (name in Named(merged.components, s) && name !in r[s] ==>
             Untouched(Named(merged.components, s)[name], Later(r, s)))
    {
      ComponentRepresented(merged, extra, inherited, s, name);
    }
  }

  lemma {:induction false} NothingTouched(j: Json, r: Renames)
    requires forall s :: s in r ==> r[s] == map[]
    ensures Untouched(j, r)
  {
    match j
    case Arr(items) =>
      forall i | 0 <= i < |items| ensures Untouched(items[i], r) {
        NothingTouched(items[i], r);
      }
    case Obj(f) =>
      forall k | k in f ensures Untouched(f[k], r) {
        NothingTouched(f[k], r);
      }
    case _ =>
  }
}
