/**
 The merging procedure itself: the extra document is rewritten in place, one
 section at a time, and components already copied out of it are rewritten with
 it, because the merged document holds the same nodes.
 */
module Mergers {
  import opened Json
  import opened Merge
  import opened MergeMeaning

  method RewriteRef(ref: string, section: Section, renames: map<string, string>) returns (result: string)
    ensures result == NewRef(ref, map[section := renames])
  {
    result := ref;
    SectionOfRef(ref, section);
    if Prefix(section) <= ref {
      var name := ref[|Prefix(section)|..];
      if name in renames {
        result := Prefix(section) + renames[name];
      }
    }
  }

  /** `rewriteRefs` on one node. */
  method RewriteNode(node: Json, section: Section, renames: map<string, string>) returns (result: Json)
    ensures result == Rewrite(node, map[section := renames])
    decreases node
  {
    hide NewRef, Prefix;
    match node
    case Arr(items) =>
      var rewritten: seq<Json> := [];
      for i := 0 to |items|
        invariant |rewritten| == i
        invariant forall k :: 0 <= k < i ==> rewritten[k] == Rewrite(items[k], map[section := renames])
      {
        var item := RewriteNode(items[i], section, renames);
        rewritten := rewritten + [item];
      }
      result := Arr(rewritten);
    case Obj(f) =>
      var g, left := f, f.Keys;
      while left != {}
        invariant left <= f.Keys == g.Keys
        invariant forall k :: k in left ==> g[k] == f[k]
        invariant forall k :: k in f && k !in left ==> g[k] == RewriteField(k, f[k], map[section := renames])
        decreases |left|
      {
        var k :| k in left;
        left := left - {k};
        if k == "$ref" && f[k].Str? {
          var ref := RewriteRef(f[k].s, section, renames);
          g := g[k := Str(ref)];
        } else {
          var value := RewriteNode(f[k], section, renames);
          g := g[k := value];
        }
      }
      result := Obj(g);
      assert g == Rewrite(node, map[section := renames]).fields;
    case _ =>
      result := node;
  }

  method RewriteNodes(m: ComponentMap, section: Section, renames: map<string, string>) returns (result: ComponentMap)
    ensures result == RewriteAll(m, map[section := renames])
  {
    result := m;
    var left := m.Keys;
    while left != {}
      invariant left <= m.Keys == result.Keys
      invariant forall k :: k in left ==> result[k] == m[k]
      invariant forall k :: k in m && k !in left ==> result[k] == Rewrite(m[k], map[section := renames])
      decreases |left|
    {
      var k :| k in left;
      left := left - {k};
      var value := RewriteNode(m[k], section, renames);
      result := result[k := value];
    }
  }

  /** The search for a new name: it tries the name itself, which is taken, and then the suffixes from 2. */
  method FindCandidate(name: string, target: ComponentMap, source: ComponentMap, inherited: set<string>)
    returns (candidate: string)
    requires name in source
    ensures candidate == Candidate(name, 2, Taken(target, source, inherited))
  {
    ghost var taken := Taken(target, source, inherited);
    ghost var free: nat :| 2 <= free && Candidate(name, 2, taken) == Suffixed(name, free)
                           && forall j: nat :: 2 <= j < free ==> Suffixed(name, j) in taken;
    candidate := name;
    var suffix := 2;
    while candidate in target || candidate in source || candidate in inherited
      invariant 2 <= suffix <= free + 1
      invariant candidate == if suffix == 2 then name else Suffixed(name, suffix - 1)
      decreases free + 1 - suffix
    {
      assert candidate in taken && Candidate(name, 2, taken) !in taken;
      candidate := Suffixed(name, suffix);
      suffix := suffix + 1;
    }
  }

  /** The first loop of `mergeComponentSection`. */
  method CollectRenames(target: ComponentMap, source: ComponentMap, inherited: set<string>)
    returns (renames: map<string, string>)
    ensures renames == SectionRenames(target, source, inherited)
  {
    hide Candidate, FirstFree, Taken, DeepEqual;
    renames := map[];
    var left := source.Keys;
    while left != {}
      invariant left <= source.Keys
      invariant forall n :: n in renames <==> n in source && n !in left && Collides(n, target, source, inherited)
      invariant forall n :: n in renames ==> renames[n] == Candidate(n, 2, Taken(target, source, inherited))
      decreases |left|
    {
      var name :| name in left;
      left := left - {name};
      if name in target {
        DeepEqualIsEqual(target[name], source[name]);
      }
      if (name in target && !DeepEqual(target[name], source[name])) || (name !in target && name in inherited) {
        var candidate := FindCandidate(name, target, source, inherited);
        renames := renames[name := candidate];
      }
    }
  }

  method RewriteSections(c: Components, section: Section, renames: map<string, string>) returns (result: Components)
    ensures result == map s | s in c :: RewriteAll(c[s], map[section := renames])
  {
    hide RewriteAll;
    result := map[];
    var left := c.Keys;
    while left != {}
      invariant left <= c.Keys
      invariant result.Keys == c.Keys - left
      invariant forall s :: s in result ==> result[s] == RewriteAll(c[s], map[section := renames])
      decreases |left|
    {
      var s :| s in left;
      left := left - {s};
      var m := RewriteNodes(c[s], section, renames);
      result := result[s := m];
    }
  }

  // ---------- the state of a merge ----------

  /** The extra document with the renames `done` applied to all of it. */
  function RewriteDocument(d: Document, done: Renames): Document {
    Document(RewriteAll(d.paths, done), map s | s in d.components :: RewriteAll(d.components[s], done))
  }

  /** The merged components after the sections of `done`, their text rewritten by `text`. */
  ghost function Partial(merged: Components, extra: Components, done: Renames, text: Renames): Components {
    map s | s in merged.Keys + extra.Keys * done.Keys ::
      if s in extra && s in done then MergedSection(Named(merged, s), extra[s], done[s], text) else Named(merged, s)
  }

  /** The sections of an extra document's own nodes in the merged document. */
  type Copies = map<Section, set<string>>

  /** The entries of `c` that `m` does not have, in the sections of `done`. */
  function NewEntries(c: Components, m: Components, done: Renames): Copies {
    map s | s in done :: Named(c, s).Keys - Named(m, s).Keys
  }

  /** The entries in `copied` rewritten, the others as they are. */
  function RewriteCopied(c: Components, copied: Copies, r: Renames): Components {
    map s | s in c :: if s in copied then RewriteEntries(c[s], copied[s], r) else c[s]
  }

  function RewriteEntries(m: ComponentMap, names: set<string>, r: Renames): ComponentMap {
    map name | name in m :: if name in names then Rewrite(m[name], r) else m[name]
  }

  // ---------- one more rename ----------

  lemma DocumentRewritten(d: Document, done: Renames, s: Section, names: map<string, string>)
    requires s !in done
    ensures RewriteDocument(RewriteDocument(d, done), map[s := names]) == RewriteDocument(d, done[s := names])
  {
    hide RewriteAll;
    assert done + map[s := names] == done[s := names];
    RewriteAllCompose(d.paths, done, map[s := names]);
    forall t | t in d.components
      ensures RewriteAll(RewriteAll(d.components[t], done), map[s := names])
           == RewriteAll(d.components[t], done[s := names])
    {
      RewriteAllCompose(d.components[t], done, map[s := names]);
    }
  }

  lemma EntryRewritten(target: ComponentMap, source: ComponentMap, names: map<string, string>,
                       done: Renames, single: Renames, final: string)
    requires done.Keys !! single.Keys
    requires final in MergedSection(target, source, names, done)
    ensures final in MergedSection(target, source, names, done + single)
    ensures MergedSection(target, source, names, done + single)[final]
         == if final in target then MergedSection(target, source, names, done)[final]
            else Rewrite(MergedSection(target, source, names, done)[final], single)
  {
    hide Rewrite;
    if final !in target {
      RewriteCompose(source[SourceName(source, names, final)], done, single);
    }
  }

  lemma EntriesRewritten(target: ComponentMap, source: ComponentMap, names: map<string, string>, done: Renames,
      single: Renames)
    requires done.Keys !! single.Keys
    ensures var section := MergedSection(target, source, names, done);
      RewriteEntries(section, section.Keys - target.Keys, single)
         == MergedSection(target, source, names, done + single)
  {
    hide MergedSection, Rewrite;
    SectionKeys(target, source, names, done);
    SectionKeys(target, source, names, done + single);
    var before := MergedSection(target, source, names, done);
    forall final | final in before
      ensures RewriteEntries(before, before.Keys - target.Keys, single)[final]
          == MergedSection(target, source, names, done + single)[final]
    {
      EntryRewritten(target, source, names, done, single, final);
    }
  }

  /** Rewriting the copied entries in place is merging with the longer renaming. */
  lemma CopiesRewritten(m: Components, e: Components, done: Renames, copied: Copies,
                        s: Section, names: map<string, string>)
    requires s !in done && copied == NewEntries(Partial(m, e, done, done), m, done)
    ensures RewriteCopied(Partial(m, e, done, done), copied, map[s := names]) == Partial(m, e, done, done[s := names])
  {
    hide MergedSection, RewriteEntries;
    var before, after := Partial(m, e, done, done), Partial(m, e, done, done[s := names]);
    assert done + map[s := names] == done[s := names];
    forall t | t in before
      ensures RewriteCopied(before, copied, map[s := names])[t] == after[t]
    {
      if t in e && t in done {
        EntriesRewritten(Named(m, t), e[t], done[t], done, map[s := names]);
      } else {
        UncopiedKept(Named(m, t), map[s := names]);
      }
    }
  }

  lemma UncopiedKept(c: ComponentMap, r: Renames)
    ensures RewriteEntries(c, c.Keys - c.Keys, r) == c
  {
    hide Rewrite;
  }

  lemma SectionKeys(target: ComponentMap, source: ComponentMap, names: map<string, string>, text: Renames)
    ensures MergedSection(target, source, names, text).Keys
         == target.Keys + set name | name in source :: Final(names, name)
    ensures forall final :: final in target ==> MergedSection(target, source, names, text)[final] == target[final]
  {
    hide Rewrite;
  }

  lemma NothingRewritten(j: Json, s: Section)
    ensures Rewrite(j, map[s := map[]]) == j
  {
    NothingTouched(j, map[s := map[]]);
    RewriteFixed(j, map[s := map[]]);
  }

  /** Without colliding names the walk over the document is skipped; it would change nothing. */
  lemma NoRenamesNoChange(d: Document, c: Components, copied: Copies, s: Section)
    ensures RewriteDocument(d, map[s := map[]]) == d
    ensures RewriteCopied(c, copied, map[s := map[]]) == c
  {
    hide Rewrite;
    forall j: Json ensures Rewrite(j, map[s := map[]]) == j {
      NothingRewritten(j, s);
    }
    assert forall m: ComponentMap :: RewriteAll(m, map[s := map[]]) == m;
    forall t | t in c && t in copied ensures RewriteEntries(c[t], copied[t], map[s := map[]]) == c[t] {
    }
  }

  // ---------- copying ----------

  ghost function Finals(names: set<string>, renames: map<string, string>): set<string> {
    set name | name in names :: Final(renames, name)
  }

  ghost predicate OneToOne(names: set<string>, renames: map<string, string>) {
    forall a, b :: a in names && b in names && Final(renames, a) == Final(renames, b) ==> a == b
  }

  lemma NextFinal(names: set<string>, renames: map<string, string>, visited: set<string>, name: string)
    requires OneToOne(names, renames) && visited <= names && name in names && name !in visited
    ensures Finals(visited + {name}, renames) == Finals(visited, renames) + {Final(renames, name)}
    ensures forall n :: n in visited ==> Final(renames, n) != Final(renames, name)
  {
    hide Final;
  }

  /** `result` is `target` with the entries `names` of `source` added under their final names. */
  ghost predicate Copied(target: ComponentMap, source: ComponentMap, renames: map<string, string>,
                         names: set<string>, result: ComponentMap)
    requires names <= source.Keys
  {
    && result.Keys == target.Keys + Finals(names, renames)
    && (forall final :: final in target ==> result[final] == target[final])
    && forall name :: name in names && Final(renames, name) !in target ==>
         Final(renames, name) in result && result[Final(renames, name)] == source[name]
  }

  lemma CopyStep(target: ComponentMap, source: ComponentMap, renames: map<string, string>,
                 names: set<string>, result: ComponentMap, name: string)
    requires OneToOne(source.Keys, renames) && names <= source.Keys && name in source && name !in names
    requires Copied(target, source, renames, names, result)
    ensures var final := Final(renames, name);
      Copied(target, source, renames, names + {name}, if final in result then result else result[final := source[name]])
  {
    hide Final, Finals, OneToOne;
    NextFinal(source.Keys, renames, names, name);
    FinalNotSeen(renames, names, name);
  }

  /** The second loop of `mergeComponentSection`. */
  method CopyEntries(target: ComponentMap, source: ComponentMap, renames: map<string, string>)
    returns (result: ComponentMap)
    requires OneToOne(source.Keys, renames)
    ensures Copied(target, source, renames, source.Keys, result)
  {
    hide Final, Copied, OneToOne;
    result := target;
    var left := source.Keys;
    ghost var visited: set<string> := {};
    NothingCopied(target, source, renames);
    while left != {}
      invariant left <= source.Keys && visited == source.Keys - left
      invariant Copied(target, source, renames, visited, result)
      decreases |left|
    {
      var name :| name in left;
      left := left - {name};
      CopyStep(target, source, renames, visited, result, name);
      var final := Final(renames, name);
      if final !in result {
        result := result[final := source[name]];
      }
      visited := visited + {name};
    }
    assert visited == source.Keys;
  }

  lemma NothingCopied(target: ComponentMap, source: ComponentMap, renames: map<string, string>)
    ensures Copied(target, source, renames, {}, target)
  {
  }

  lemma FinalNotSeen(renames: map<string, string>, visited: set<string>, name: string)
    requires forall n :: n in visited ==> Final(renames, n) != Final(renames, name)
    ensures Final(renames, name) !in Finals(visited, renames)
  {
    hide Final;
  }

  // ---------- one section ----------

  lemma CopiedIsMerged(target: ComponentMap, source: ComponentMap, names: map<string, string>, text: Renames,
      result: ComponentMap)
    requires OneToOne(source.Keys, names)
    requires Copied(target, RewriteAll(source, text), names, source.Keys, result)
    ensures result == MergedSection(target, source, names, text)
  {
    hide Rewrite, Final;
    SectionKeys(target, source, names, text);
    var section := MergedSection(target, source, names, text);
    forall final | final in section && final !in target ensures result[final] == section[final] {
      var name := SourceName(source, names, final);
      assert name in source.Keys && Final(names, name) == final;
    }
  }

  lemma RenamesOneToOne(target: ComponentMap, source: ComponentMap, inherited: set<string>)
    ensures OneToOne(source.Keys, SectionRenames(target, source, inherited))
  {
    hide SectionRenames, Final;
    forall a, b | a in source.Keys && b in source.Keys
                  && Final(SectionRenames(target, source, inherited), a)
                      == Final(SectionRenames(target, source, inherited), b)
      ensures a == b
    {
      RenamingInjective(target, source, inherited, a, b);
    }
  }

  lemma SectionAdded(m: Components, e: Components, done: Renames, s: Section, names: map<string, string>,
      result: ComponentMap)
    requires s !in done && s in e
    requires result == MergedSection(Named(m, s), e[s], names, done[s := names])
    ensures Partial(m, e, done, done[s := names])[s := result] == Partial(m, e, done[s := names], done[s := names])
  {
    hide MergedSection;
  }

  lemma EntriesAdded(m: Components, e: Components, done: Renames, s: Section, names: map<string, string>)
    requires s !in done
    ensures var after := Partial(m, e, done[s := names], done[s := names]);
      NewEntries(after, m, done[s := names])
      == NewEntries(Partial(m, e, done, done), m, done)[s := Named(after, s).Keys - Named(m, s).Keys]
  {
    hide MergedSection;
    forall t | t in done && t in e
      ensures MergedSection(Named(m, t), e[t], done[t], done).Keys
           == MergedSection(Named(m, t), e[t], done[t], done[s := names]).Keys
    {
      SectionKeys(Named(m, t), e[t], done[t], done);
      SectionKeys(Named(m, t), e[t], done[t], done[s := names]);
    }
  }

  /** A section that the extra document does not have. */
  lemma SectionSkipped(m: Components, e: Document, done: Renames, s: Section)
    requires s !in done && s !in e.components
    ensures RewriteDocument(e, done[s := map[]]) == RewriteDocument(e, done)
    ensures Partial(m, e.components, done[s := map[]], done[s := map[]]) == Partial(m, e.components, done, done)
    ensures Named(Partial(m, e.components, done, done), s) == Named(m, s)
  {
    hide RewriteDocument, RewriteCopied, NewEntries, MergedSection, Rewrite;
    var copied := NewEntries(Partial(m, e.components, done, done), m, done);
    DocumentRewritten(e, done, s, map[]);
    NoRenamesNoChange(RewriteDocument(e, done), Partial(m, e.components, done, done), copied, s);
    CopiesRewritten(m, e.components, done, copied, s, map[]);
    assert Partial(m, e.components, done[s := map[]], done[s := map[]])
        == Partial(m, e.components, done, done[s := map[]]);
  }

  lemma NothingCollides(target: ComponentMap, done: Renames, inherited: set<string>)
    ensures SectionRenames(target, RewriteAll(map[], done), inherited) == map[]
  {
    hide Candidate;
  }

  lemma SectionUntouched(m: Components, e: Document, done: Renames, s: Section)
    requires s !in done
    ensures Named(Partial(m, e.components, done, done), s) == Named(m, s)
    ensures RewriteDocument(e, done).components.Keys == e.components.Keys
    ensures s in e.components ==> RewriteDocument(e, done).components[s] == RewriteAll(e.components[s], done)
  {
    hide RewriteAll, MergedSection;
  }

  lemma SectionText(e: Document, done: Renames, s: Section, before: Renames)
    requires s in e.components
    ensures s in RewriteDocument(e, done).components
    ensures RewriteDocument(e, done).components[s] == RewriteAll(e.components[s], done)
    ensures RewriteAll(e.components[s], done).Keys == e.components[s].Keys == RewriteAll(e.components[s], before).Keys
  {
    hide Rewrite;
  }

  lemma NothingDone(m: Document, e: Document)
    ensures RewriteDocument(e, map[]) == e
    ensures m == Document(m.paths, Partial(m.components, e.components, map[], map[]))
    ensures NewEntries(m.components, m.components, map[]) == map[]
  {
    hide Rewrite;
    forall j: Json ensures Rewrite(j, map[]) == j {
      NothingTouched(j, map[]);
      RewriteFixed(j, map[]);
    }
    assert forall c: ComponentMap :: RewriteAll(c, map[]) == c;
  }

  function AddPaths(before: map<string, Json>, paths: map<string, Json>, inherited: set<string>): map<string, Json> {
    map p | p in before.Keys + (paths.Keys - inherited) :: if p in before then before[p] else paths[p]
  }

  lemma AllSectionsDone(m: Document, e: Document, done: Renames, inherited: set<string>)
    requires done == ExtraRenames(m.components, e.components, inherited)
    ensures MergeOne(m, e, inherited) == Document(
      AddPaths(m.paths, RewriteDocument(e, done).paths, inherited), Partial(m.components, e.components, done, done))
  {
    hide ExtraRenames, MergedSection, Rewrite;
    forall s: Section ensures s in done {
      RenamesExplained(m.components, e.components, inherited, s);
    }
  }

  class Merger {
    const inherited: set<string>
    var merged: Document
    var extra: Document
    /** The entries of `merged` that are nodes of `extra`. */
    var copied: Copies

    constructor (base: Document, inherited: set<string>)
      ensures merged == base && this.inherited == inherited
    {
      this.inherited := inherited;
      merged := base;
      extra := Document(map[], map[]);
      copied := map[];
    }

    /** The sections of `done` have been merged from `e` into `m`. */
    ghost predicate Progress(m: Document, e: Document, done: Renames)
      reads this
    {
      && extra == RewriteDocument(e, done)
      && merged == Document(m.paths, Partial(m.components, e.components, done, done))
      && copied == NewEntries(merged.components, m.components, done)
    }

    /** `rewriteRefs` on the whole extra document, and so on the entries copied from it. */
    method RewriteExtra(section: Section, renames: map<string, string>)
      modifies `extra, `merged
      ensures extra == RewriteDocument(old(extra), map[section := renames])
      ensures merged == Document(old(merged).paths,
                                 RewriteCopied(old(merged).components, copied, map[section := renames]))
    {
      hide RewriteAll, RewriteCopied;
      var paths := RewriteNodes(extra.paths, section, renames);
      var sections := RewriteSections(extra.components, section, renames);
      extra := Document(paths, sections);
      merged := merged.(components := RewriteCopied(merged.components, copied, map[section := renames]));
    }

    /** `mergeComponentSection`. */
    method MergeSection(section: Section, ghost m: Document, ghost e: Document, ghost done: Renames)
      requires section !in done && Progress(m, e, done)
      modifies this
      ensures var names := SectionRenames(Named(m.components, section),
                                          RewriteAll(Named(e.components, section), done), inherited);
        Progress(m, e, done[section := names])
    {
      hide SectionRenames, RewriteAll, RewriteDocument, RewriteCopied, MergedSection, Partial, NewEntries, OneToOne,
          Copied;
      SectionUntouched(m.components, e, done, section);
      if section !in extra.components {
        SectionSkipped(m.components, e, done, section);
        NothingCollides(Named(m.components, section), done, inherited);
        assert Named(m.components, section).Keys - Named(m.components, section).Keys == {};
        EntriesAdded(m.components, e.components, done, section, map[]);
        copied := copied[section := {}];
        return;
      }
      var target := Named(merged.components, section);
      var renames := CollectRenames(target, extra.components[section], inherited);
      RenamesOneToOne(target, extra.components[section], inherited);
      CopiesRewritten(m.components, e.components, done, copied, section, renames);
      DocumentRewritten(e, done, section, renames);
      NoRenamesNoChange(extra, merged.components, copied, section);
      if renames != map[] {
        RewriteExtra(section, renames);
      }
      SectionText(e, done[section := renames], section, done);
      var result := CopyEntries(target, extra.components[section], renames);
      CopiedIsMerged(target, e.components[section], renames, done[section := renames], result);
      SectionAdded(m.components, e.components, done, section, renames, result);
      EntriesAdded(m.components, e.components, done, section, renames);
      copied := copied[section := result.Keys - target.Keys];
      merged := merged.(components := merged.components[section := result]);
    }

    method MergeSections(e: Document)
      requires extra == e && copied == map[]
      modifies this
      ensures Progress(old(merged), e, ExtraRenames(old(merged).components, e.components, inherited))
    {
      hide Progress, SectionRenames, RewriteAll;
      ghost var m := merged;
      ghost var done: Renames := map[];
      NothingDone(m, e);
      StartProgress(m, e);
      for i := 0 to |SECTIONS|
        invariant Progress(m, e, done)
        invariant forall s :: s in done ==> s in SECTIONS[..i]
        invariant RenamesOf(m.components, e.components, SECTIONS[i..], done, inherited)
               == ExtraRenames(m.components, e.components, inherited)
      {
        SectionsDistinct(i);
        MergeSection(SECTIONS[i], m, e, done);
        done := done[SECTIONS[i] :=
          SectionRenames(Named(m.components, SECTIONS[i]),
                         RewriteAll(Named(e.components, SECTIONS[i]), done), inherited)];
        assert SECTIONS[i..][1..] == SECTIONS[i + 1..];
      }
    }

    lemma StartProgress(m: Document, e: Document)
      requires merged == m && extra == e && copied == map[]
      ensures Progress(m, e, map[])
    {
      hide Partial, RewriteDocument, NewEntries;
      NothingDone(m, e);
    }

    /** The loop over the paths of the extra document. */
    method MergePaths()
      modifies `merged
      ensures merged == Document(AddPaths(old(merged).paths, extra.paths, inherited), old(merged).components)
    {
      ghost var before := merged.paths;
      var left := extra.paths.Keys;
      while left != {}
        invariant left <= extra.paths.Keys
        invariant merged.components == old(merged).components
        invariant merged.paths.Keys == before.Keys + (extra.paths.Keys - left - inherited)
        invariant forall p :: p in before ==> merged.paths[p] == before[p]
        invariant forall p :: p in merged.paths && p !in before ==> merged.paths[p] == extra.paths[p]
        decreases |left|
      {
        var p :| p in left;
        left := left - {p};
        if p !in merged.paths && p !in inherited {
          merged := merged.(paths := merged.paths[p := extra.paths[p]]);
        }
      }
    }

    /** One round of the loop over the extra documents. */
    method MergeDocument(e: Document)
      modifies this
      ensures merged == MergeOne(old(merged), e, inherited)
    {
      hide ExtraRenames, RewriteDocument, Partial, NewEntries, MergeOne, AddPaths;
      ghost var m := merged;
      extra, copied := e, map[];
      MergeSections(e);
      MergePaths();
      AllSectionsDone(m, e, ExtraRenames(m.components, e.components, inherited), inherited);
    }
  }

  lemma SectionsDistinct(i: nat)
    requires i < |SECTIONS|
    ensures SECTIONS[i] !in SECTIONS[..i]
  {
  }

  method MergeOpenApiDocuments(base: Document, extras: seq<Document>, inherited: set<string>) returns (result: Document)
    ensures result == MergeAll(base, extras, inherited)
  {
    hide MergeOne;
    var merger := new Merger(base, inherited);
    for i := 0 to |extras|
      invariant merger.inherited == inherited
      invariant merger.merged == MergeAll(base, extras[..i], inherited)
    {
      assert extras[..i + 1][..i] == extras[..i];
      merger.MergeDocument(extras[i]);
    }
    assert extras[..|extras|] == extras;
    result := merger.merged;
  }
}
