/**
 Combining OpenAPI documents (packages/shared/src/openapi/merge.ts): the
 renaming and the merged document as functions of the documents that are
 combined. Documents have the shape of their type: path items and components
 are objects.
 */
module Merge {
  import opened Json

  type ComponentMap = map<string, Json>
  type Components = map<Section, ComponentMap>

  datatype Document = Document(paths: map<string, Json>, components: Components)

  function Named(c: Components, s: Section): ComponentMap {
    if s in c then c[s] else map[]
  }

  /** For each section treated so far, the new names of its colliding components. */
  type Renames = map<Section, map<string, string>>

  // ---------- rewriting ----------

  /** The reference string that `ref` becomes. */
  function NewRef(ref: string, renames: Renames): string {
    match SectionOf(ref)
    case None => ref
    case Some(s) =>
      var name := RefName(ref, s).value;
      if s in renames && name in renames[s] then RefTo(s, renames[s][name]) else ref
  }

  function Rewrite(j: Json, renames: Renames): Json
    decreases j, 0
  {
    match j
    case Arr(items) => Arr(seq(|items|, i requires 0 <= i < |items| => Rewrite(items[i], renames)))
    case Obj(f) => Obj(map k | k in f :: RewriteField(k, f[k], renames))
    case _ => j
  }

  function RewriteField(key: string, value: Json, renames: Renames): Json
    decreases value, 1
  {
    if key == "$ref" && value.Str? then Str(NewRef(value.s, renames)) else Rewrite(value, renames)
  }

  function RewriteAll(m: ComponentMap, renames: Renames): ComponentMap {
    map name | name in m :: Rewrite(m[name], renames)
  }

  /** Rewriting one section after others is rewriting with all of them at once. */
  lemma NewRefCompose(ref: string, r1: Renames, r2: Renames)
    requires r1.Keys !! r2.Keys
    ensures NewRef(NewRef(ref, r1), r2) == NewRef(ref, r1 + r2)
  {
    var s := SectionOf(ref);
    if s.Some? {
      var name := RefName(ref, s.value).value;
      if s.value in r1 && name in r1[s.value] {
        SectionOfRefTo(s.value, r1[s.value][name]);
      }
    }
  }

  lemma {:induction false} RewriteCompose(j: Json, r1: Renames, r2: Renames)
    requires r1.Keys !! r2.Keys
    ensures Rewrite(Rewrite(j, r1), r2) == Rewrite(j, r1 + r2)
  {
    match j
    case Arr(items) =>
      forall i | 0 <= i < |items|
        ensures Rewrite(Rewrite(items[i], r1), r2) == Rewrite(items[i], r1 + r2)
      {
        RewriteCompose(items[i], r1, r2);
      }
    case Obj(f) =>
      forall k | k in f
        ensures RewriteField(k, RewriteField(k, f[k], r1), r2) == RewriteField(k, f[k], r1 + r2)
      {
        RewriteKeepsStrings(f[k], r1);
        if f[k].Str? {
          NewRefCompose(f[k].s, r1, r2);
        }
        RewriteCompose(f[k], r1, r2);
      }
    case _ =>
  }

  lemma RewriteKeepsStrings(j: Json, renames: Renames)
    ensures Rewrite(j, renames).Str? <==> j.Str?
  {
  }

  lemma RewriteAllCompose(m: ComponentMap, r1: Renames, r2: Renames)
    requires r1.Keys !! r2.Keys
    ensures RewriteAll(RewriteAll(m, r1), r2) == RewriteAll(m, r1 + r2)
  {
    forall name | name in m
      ensures Rewrite(Rewrite(m[name], r1), r2) == Rewrite(m[name], r1 + r2)
    {
      RewriteCompose(m[name], r1, r2);
    }
  }

  // ---------- new names ----------

  /** The first of `name_2`, `name_3`, ... that is not taken. */
  ghost predicate FirstFree(candidate: string, name: string, from: nat, taken: set<string>) {
    exists k: nat ::
      && from <= k && candidate == Suffixed(name, k) && candidate !in taken
      && forall j: nat :: from <= j < k ==> Suffixed(name, j) in taken
  }

  /** Such a name exists, however many are taken. */
  function Candidate(name: string, from: nat, taken: set<string>): (candidate: string)
    ensures FirstFree(candidate, name, from, taken)
    ensures candidate !in taken
    decreases |taken|
  {
    var first := Suffixed(name, from);
    if first !in taken then
      first
    else
      var candidate := Candidate(name, from + 1, taken - {first});
      assert FirstFree(candidate, name, from, taken) by {
        var k: nat :| from + 1 <= k && candidate == Suffixed(name, k) && candidate !in taken - {first}
                      && forall j: nat :: from + 1 <= j < k ==> Suffixed(name, j) in taken - {first};
        if candidate == first {
          SuffixedInjective(name, k, name, from);
          assert false;
        }
      }
      candidate
  }

  /** The names that JavaScript's `in` finds in a section. */
  function Taken(target: ComponentMap, source: ComponentMap, inherited: set<string>): set<string> {
    target.Keys + source.Keys + inherited
  }

  /** `inherited` are the names every object inherits: `in` finds them, no component equals them. */
  predicate Collides(name: string, target: ComponentMap, source: ComponentMap, inherited: set<string>) {
    name in source &&
    if name in target then target[name] != source[name] else name in inherited
  }

  function SectionRenames(target: ComponentMap, source: ComponentMap, inherited: set<string>): map<string, string> {
    map name | name in source && Collides(name, target, source, inherited) ::
      Candidate(name, 2, Taken(target, source, inherited))
  }

  function Final(renames: map<string, string>, name: string): string {
    if name in renames then renames[name] else name
  }

  /**
   The renaming of a section is one-to-one, and a new name is neither used by
   the target nor by any component of the source.
   */
  lemma RenamingInjective(target: ComponentMap, source: ComponentMap, inherited: set<string>, a: string, b: string)
    requires a in source && b in source
    ensures var r := SectionRenames(target, source, inherited);
      && (Final(r, a) == Final(r, b) ==> a == b)
      && (a in r ==> r[a] !in target && r[a] !in source && r[a] !in inherited)
  {
    var taken := Taken(target, source, inherited);
    var r := SectionRenames(target, source, inherited);
    if a in r && b in r && r[a] == r[b] {
      var i: nat :| r[a] == Suffixed(a, i);
      var j: nat :| r[b] == Suffixed(b, j);
      SuffixedInjective(a, i, b, j);
    }
  }

  // ---------- one extra document ----------

  /** The renames of `sections`, each found after the earlier ones have been applied to the extra document. */
  function RenamesOf(target: Components, extra: Components, sections: seq<Section>, done: Renames,
      inherited: set<string>): Renames
    decreases |sections|
  {
    if sections == [] then
      done
    else
      var s := sections[0];
      var found := SectionRenames(Named(target, s), RewriteAll(Named(extra, s), done), inherited);
      RenamesOf(target, extra, sections[1..], done[s := found], inherited)
  }

  function ExtraRenames(target: Components, extra: Components, inherited: set<string>): Renames {
    RenamesOf(target, extra, SECTIONS, map[], inherited)
  }

  /** The sections before `s` in the order of `SECTIONS`, and their renames. */
  predicate Before(a: Section, s: Section) {
    match s
    case Schemas => false
    case Responses => a == Schemas
    case Parameters => a == Schemas || a == Responses
    case SecuritySchemes => a != SecuritySchemes
  }

  function Earlier(renames: Renames, s: Section): Renames {
    map a | a in renames && Before(a, s) :: renames[a]
  }

  function Later(renames: Renames, s: Section): Renames {
    map a | a in renames && !Before(a, s) :: renames[a]
  }

  /** Each section is renamed against its text after the renames of the earlier sections. */
  lemma RenamesExplained(target: Components, extra: Components, inherited: set<string>, s: Section)
    ensures var r := ExtraRenames(target, extra, inherited);
      && s in r
      && r[s] == SectionRenames(Named(target, s), RewriteAll(Named(extra, s), Earlier(r, s)), inherited)
  {
    hide SectionRenames, RewriteAll, Named;
    var r0: Renames := map[];
    var f0 := SectionRenames(Named(target, Schemas), RewriteAll(Named(extra, Schemas), r0), inherited);
    var r1 := r0[Schemas := f0];
    var f1 := SectionRenames(Named(target, Responses), RewriteAll(Named(extra, Responses), r1), inherited);
    var r2 := r1[Responses := f1];
    var f2 := SectionRenames(Named(target, Parameters), RewriteAll(Named(extra, Parameters), r2), inherited);
    var r3 := r2[Parameters := f2];
    var f3 := SectionRenames(Named(target, SecuritySchemes), RewriteAll(Named(extra, SecuritySchemes), r3), inherited);
    var r4 := r3[SecuritySchemes := f3];
    assert ExtraRenames(target, extra, inherited) == r4 by {
      assert SECTIONS[1..] == [Responses, Parameters, SecuritySchemes];
      assert [Responses, Parameters, SecuritySchemes][1..] == [Parameters, SecuritySchemes];
      assert [Parameters, SecuritySchemes][1..] == [SecuritySchemes];
      assert RenamesOf(target, extra, SECTIONS, r0, inherited)
          == RenamesOf(target, extra, [Responses, Parameters, SecuritySchemes], r1, inherited);
      assert RenamesOf(target, extra, [Parameters, SecuritySchemes], r2, inherited)
          == RenamesOf(target, extra, [SecuritySchemes], r3, inherited);
    }
    match s
    case Schemas => assert Earlier(r4, s) == r0;
    case Responses => assert Earlier(r4, s) == r1;
    case Parameters => assert Earlier(r4, s) == r2;
    case SecuritySchemes => assert Earlier(r4, s) == r3;
  }

  /** A section of the merged document: the target's entries, and those of the source under their final names. */
  ghost function MergedSection(target: ComponentMap, source: ComponentMap, names: map<string, string>,
      renames: Renames): ComponentMap {
    target + map final | final in (set name | name in source :: Final(names, name)) - target.Keys ::
      Rewrite(source[SourceName(source, names, final)], renames)
  }

  ghost function SourceName(source: ComponentMap, names: map<string, string>, final: string): (name: string)
    requires exists name :: name in source && Final(names, name) == final
    ensures name in source && Final(names, name) == final
  {
    var name :| name in source && Final(names, name) == final;
    name
  }

  /** `mergeOpenApiDocuments` for one extra document: paths already present are kept. */
  ghost function MergeOne(merged: Document, extra: Document, inherited: set<string>): Document {
    var r := ExtraRenames(merged.components, extra.components, inherited);
    Document(
      map p | p in merged.paths.Keys + (extra.paths.Keys - inherited) ::
        if p in merged.paths then merged.paths[p] else Rewrite(extra.paths[p], r),
      map s | s in merged.components.Keys + extra.components.Keys ::
        if s in extra.components && s in r
        then MergedSection(Named(merged.components, s), extra.components[s], r[s], r)
        else Named(merged.components, s))
  }

  ghost function MergeAll(base: Document, extras: seq<Document>, inherited: set<string>): Document {
    if extras == [] then
      base
    else
      var last := |extras| - 1;
      MergeOne(MergeAll(base, extras[..last], inherited), extras[last], inherited)
  }

  /** What became of one component of an extra document. */
  lemma ComponentMerged(merged: Document, extra: Document, inherited: set<string>, s: Section, name: string)
    requires name in Named(extra.components, s)
    ensures var r := ExtraRenames(merged.components, extra.components, inherited);
      var result := MergeOne(merged, extra, inherited);
      && s in r
      && var final := Final(r[s], name);
      && final in Named(result.components, s)
      && (final !in Named(merged.components, s) ==>
           Named(result.components, s)[final] == Rewrite(extra.components[s][name], r))
      && (final in Named(merged.components, s) ==>
           && final == name && name !in r[s]
           && Named(result.components, s)[name] == Named(merged.components, s)[name]
                == Rewrite(extra.components[s][name], Earlier(r, s)))
  {
    hide SectionRenames, ExtraRenames, RewriteAll;
    var r := ExtraRenames(merged.components, extra.components, inherited);
    RenamesExplained(merged.components, extra.components, inherited, s);
    var target, source := Named(merged.components, s), RewriteAll(extra.components[s], Earlier(r, s));
    FinalUnused(target, extra.components[s], Earlier(r, s), inherited, name);
    var final := Final(r[s], name);
    var section := MergedSection(target, extra.components[s], r[s], r);
    assert Named(MergeOne(merged, extra, inherited).components, s) == section;
    if final !in target {
      var origin := SourceName(extra.components[s], r[s], final);
      assert section[final] == Rewrite(extra.components[s][origin], r);
      FinalInjective(target, extra.components[s], Earlier(r, s), inherited, origin, name);
    }
  }

  lemma FinalInjective(target: ComponentMap, source: ComponentMap, done: Renames, inherited: set<string>,
      a: string, b: string)
    requires a in source && b in source
    ensures var r := SectionRenames(target, RewriteAll(source, done), inherited);
      Final(r, a) == Final(r, b) ==> a == b
  {
    RenamingInjective(target, RewriteAll(source, done), inherited, a, b);
  }

  /** A component keeps a name of the target only if the target's component is equal to it. */
  lemma FinalUnused(target: ComponentMap, source: ComponentMap, done: Renames, inherited: set<string>, name: string)
    requires name in source
    ensures var r := SectionRenames(target, RewriteAll(source, done), inherited);
      Final(r, name) in target ==> name !in r && target[name] == Rewrite(source[name], done)
  {
    RenamingInjective(target, RewriteAll(source, done), inherited, name, name);
  }
}
