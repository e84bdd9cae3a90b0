/**
 Which components a path reaches through its references, and that merging keeps
 what they mean exactly as far as de-duplication leaves their references alone.
 */
module MergeReach {
  import opened Json
  import opened Merge
  import opened MergeMeaning

  // ---------- references and reachability ----------

  /** `j` has a reference to this component. */
  ghost predicate Mentions(j: Json, s: Section, name: string) {
    match j
    case Arr(items) => exists i :: 0 <= i < |items| && Mentions(items[i], s, name)
    case Obj(f) =>
      || ("$ref" in f && f["$ref"] == Str(RefTo(s, name)))
      || exists k :: k in f && Mentions(f[k], s, name)
    case _ => false
  }

  /** From `j` the component is reached over `steps` components of `c`. */
  ghost predicate ReachIn(c: Components, j: Json, steps: nat, s: Section, name: string) {
    if steps == 0 then Mentions(j, s, name)
    else exists t: Section, via ::
      ReachIn(c, j, steps - 1, t, via) && via in Named(c, t) && Mentions(Named(c, t)[via], s, name)
  }

  ghost predicate Reaches(c: Components, j: Json, s: Section, name: string) {
    exists steps: nat :: ReachIn(c, j, steps, s, name)
  }

  /** What a component reaches is reached from wherever the component is mentioned. */
  lemma {:induction false} ReachThrough(c: Components, j: Json, t: Section, via: string, steps: nat, s: Section,
      name: string)
    requires Mentions(j, t, via) && via in Named(c, t)
    requires ReachIn(c, Named(c, t)[via], steps, s, name)
    ensures ReachIn(c, j, steps + 1, s, name)
  {
    hide Mentions;
    if steps == 0 {
      assert ReachIn(c, j, 0, t, via);
    } else {
      var u: Section, next :| ReachIn(c, Named(c, t)[via], steps - 1, u, next)
        && next in Named(c, u) && Mentions(Named(c, u)[next], s, name);
      ReachThrough(c, j, t, via, steps - 1, u, next);
    }
  }

  // ---------- references of rewritten text ----------

  /** The final name of a component under all renames. */
  function FinalName(r: Renames, s: Section, name: string): string {
    if s in r then Final(r[s], name) else name
  }

  lemma NewRefOf(r: Renames, s: Section, name: string)
    ensures NewRef(RefTo(s, name), r) == RefTo(s, FinalName(r, s, name))
  {
    SectionOfRefTo(s, name);
  }

  lemma NewRefFrom(ref: string, r: Renames, s: Section, name: string)
    requires NewRef(ref, r) == RefTo(s, name)
    ensures exists origin :: ref == RefTo(s, origin) && FinalName(r, s, origin) == name
  {
    SectionOfRefTo(s, name);
    var t := SectionOf(ref);
    if t.Some? {
      var origin := RefName(ref, t.value).value;
      RefToOfRefName(ref, t.value);
      NewRefOf(r, t.value, origin);
      SectionOfRefTo(t.value, FinalName(r, t.value, origin));
      assert ref == RefTo(s, origin) && FinalName(r, s, origin) == name;
    }
  }

  lemma {:induction false} MentionsForward(j: Json, r: Renames, s: Section, name: string)
    requires Mentions(j, s, name)
    ensures Mentions(Rewrite(j, r), s, FinalName(r, s, name))
  {
    match j
    case Arr(items) =>
      var i :| 0 <= i < |items| && Mentions(items[i], s, name);
      MentionsForward(items[i], r, s, name);
      assert Rewrite(j, r).items[i] == Rewrite(items[i], r);
    case Obj(f) =>
      var g := Rewrite(j, r).fields;
      if "$ref" in f && f["$ref"] == Str(RefTo(s, name)) {
        NewRefOf(r, s, name);
      } else {
        var k :| k in f && Mentions(f[k], s, name);
        MentionsForward(f[k], r, s, name);
        assert g[k] == RewriteField(k, f[k], r) && !f[k].Str?;
      }
  }

  lemma {:induction false} MentionsBackward(j: Json, r: Renames, s: Section, final: string)
    requires Mentions(Rewrite(j, r), s, final)
    ensures exists name :: Mentions(j, s, name) && FinalName(r, s, name) == final
  {
    match j
    case Arr(items) =>
      var i :| 0 <= i < |items| && Mentions(Rewrite(j, r).items[i], s, final);
      MentionsBackward(items[i], r, s, final);
      var name :| Mentions(items[i], s, name) && FinalName(r, s, name) == final;
      assert Mentions(j, s, name);
    case Obj(f) =>
      var g := Rewrite(j, r).fields;
      if "$ref" in g && g["$ref"] == Str(RefTo(s, final)) {
        RewriteKeepsStrings(f["$ref"], r);
        assert g["$ref"] == RewriteField("$ref", f["$ref"], r);
        NewRefFrom(f["$ref"].s, r, s, final);
      } else {
        var k :| k in g && Mentions(g[k], s, final);
        RewriteKeepsStrings(f[k], r);
        assert g[k] == RewriteField(k, f[k], r) && !g[k].Str?;
        MentionsBackward(f[k], r, s, final);
        var name :| Mentions(f[k], s, name) && FinalName(r, s, name) == final;
        assert Mentions(j, s, name);
      }
  }

  /** Text that is not untouched refers to a renamed component. */
  lemma {:induction false} TouchedMentions(j: Json, r: Renames)
    requires !Untouched(j, r)
    ensures exists s, name :: s in r && name in r[s] && Mentions(j, s, name)
  {
    match j
    case Arr(items) =>
      var i :| 0 <= i < |items| && !Untouched(items[i], r);
      TouchedMentions(items[i], r);
      var s, name :| s in r && name in r[s] && Mentions(items[i], s, name);
      assert Mentions(j, s, name);
    case Obj(f) =>
      if "$ref" in f && f["$ref"].Str? && Renamed(f["$ref"].s, r) {
        var s := SectionOf(f["$ref"].s).value;
        var name := RefName(f["$ref"].s, s).value;
        RefToOfRefName(f["$ref"].s, s);
        assert Mentions(j, s, name);
      } else {
        var k :| k in f && !Untouched(f[k], r);
        TouchedMentions(f[k], r);
        var s, name :| s in r && name in r[s] && Mentions(f[k], s, name);
        assert Mentions(j, s, name);
      }
  }

  lemma {:induction false} MentionResolves(j: Json, c: Components, s: Section, name: string)
    requires Resolves(j, c) && Mentions(j, s, name)
    ensures name in Named(c, s)
  {
    match j
    case Arr(items) =>
      var i :| 0 <= i < |items| && Mentions(items[i], s, name);
      MentionResolves(items[i], c, s, name);
    case Obj(f) =>
      if "$ref" in f && f["$ref"] == Str(RefTo(s, name)) {
        SectionOfRefTo(s, name);
        assert RefResolves(f["$ref"].s, c) && RefName(RefTo(s, name), s).Some?;
      } else {
        var k :| k in f && Mentions(f[k], s, name);
        MentionResolves(f[k], c, s, name);
      }
  }

  lemma ReachResolves(c: Components, j: Json, steps: nat, s: Section, name: string)
    requires ClosedComponents(c) && Resolves(j, c) && ReachIn(c, j, steps, s, name)
    ensures name in Named(c, s)
  {
    hide Mentions, Resolves;
    if steps == 0 {
      MentionResolves(j, c, s, name);
    } else {
      var t: Section, via :| ReachIn(c, j, steps - 1, t, via) && via in Named(c, t)
          && Mentions(Named(c, t)[via], s, name);
      MentionResolves(Named(c, t)[via], c, s, name);
    }
  }

  // ---------- the image of what is reached ----------

  /** The component's text, rewritten, is in the target under its final name. */
  predicate Carried(source: Components, target: Components, r: Renames, s: Section, name: string) {
    && name in Named(source, s) && FinalName(r, s, name) in Named(target, s)
    && Named(target, s)[FinalName(r, s, name)] == Rewrite(Named(source, s)[name], r)
  }

  ghost predicate CarriedBefore(source: Components, target: Components, r: Renames, j: Json, steps: nat) {
    forall i: nat, s: Section, name ::
      i < steps && ReachIn(source, j, i, s, name) ==> Carried(source, target, r, s, name)
  }

  lemma {:induction false} ReachForward(source: Components, target: Components, r: Renames, j: Json, steps: nat,
      s: Section, name: string)
    requires CarriedBefore(source, target, r, j, steps) && ReachIn(source, j, steps, s, name)
    ensures ReachIn(target, Rewrite(j, r), steps, s, FinalName(r, s, name))
  {
    hide Mentions, Rewrite, FinalName;
    if steps == 0 {
      MentionsForward(j, r, s, name);
    } else {
      var t: Section, via :| ReachIn(source, j, steps - 1, t, via)
        && via in Named(source, t) && Mentions(Named(source, t)[via], s, name);
      ReachForward(source, target, r, j, steps - 1, t, via);
      assert Carried(source, target, r, t, via);
      MentionsForward(Named(source, t)[via], r, s, name);
    }
  }

  lemma {:induction false} ReachBackward(source: Components, target: Components, r: Renames, j: Json, steps: nat,
      s: Section, final: string)
    requires CarriedBefore(source, target, r, j, steps) && ReachIn(target, Rewrite(j, r), steps, s, final)
    ensures exists name :: ReachIn(source, j, steps, s, name) && FinalName(r, s, name) == final
  {
    hide Mentions, Rewrite, FinalName;
    if steps == 0 {
      MentionsBackward(j, r, s, final);
      var name :| Mentions(j, s, name) && FinalName(r, s, name) == final;
      assert ReachIn(source, j, 0, s, name);
    } else {
      var t: Section, place :| ReachIn(target, Rewrite(j, r), steps - 1, t, place)
        && place in Named(target, t) && Mentions(Named(target, t)[place], s, final);
      ReachBackward(source, target, r, j, steps - 1, t, place);
      var via :| ReachIn(source, j, steps - 1, t, via) && FinalName(r, t, via) == place;
      assert Carried(source, target, r, t, via);
      MentionsBackward(Named(source, t)[via], r, s, final);
      var name :| Mentions(Named(source, t)[via], s, name) && FinalName(r, s, name) == final;
      assert ReachIn(source, j, steps, s, name);
    }
  }

  /** What `j`, rewritten, reaches in the target is what `j` reaches in the source, under final names. */
  ghost predicate SameReach(source: Components, target: Components, r: Renames, j: Json) {
    forall s: Section, final ::
      Reaches(target, Rewrite(j, r), s, final) <==>
      exists name :: Reaches(source, j, s, name) && FinalName(r, s, name) == final
  }

  /** All that `j` reaches is carried over. */
  ghost predicate ReachCarried(source: Components, target: Components, r: Renames, j: Json) {
    forall s: Section, name :: Reaches(source, j, s, name) ==> Carried(source, target, r, s, name)
  }

  lemma CarriedReach(source: Components, target: Components, r: Renames, j: Json)
    requires ReachCarried(source, target, r, j)
    ensures SameReach(source, target, r, j)
  {
    hide Mentions, Rewrite, FinalName, ReachIn, Carried;
    forall i: nat, s: Section, name | ReachIn(source, j, i, s, name) ensures Carried(source, target, r, s, name) {
      assert Reaches(source, j, s, name);
    }
    forall s: Section, final
      ensures Reaches(target, Rewrite(j, r), s, final) <==>
              exists name :: Reaches(source, j, s, name) && FinalName(r, s, name) == final
    {
      if Reaches(target, Rewrite(j, r), s, final) {
        var steps: nat :| ReachIn(target, Rewrite(j, r), steps, s, final);
        ReachBackward(source, target, r, j, steps, s, final);
        var name :| ReachIn(source, j, steps, s, name) && FinalName(r, s, name) == final;
        assert Reaches(source, j, s, name);
      }
      if exists name :: Reaches(source, j, s, name) && FinalName(r, s, name) == final {
        var name :| Reaches(source, j, s, name) && FinalName(r, s, name) == final;
        var steps: nat :| ReachIn(source, j, steps, s, name);
        ReachForward(source, target, r, j, steps, s, name);
      }
    }
  }

  // ---------- exactly when the reach is kept ----------

  /** An equal component of the merged document stands for this one. */
  predicate Deduplicated(merged: Components, extra: Components, r: Renames, s: Section, name: string) {
    name in Named(extra, s) && name in Named(merged, s) && s in r && name !in r[s]
  }

  /**
   No de-duplicated component that `j` reaches in its own document refers to a component renamed
   in the same or a later section.
   */
  ghost predicate ReachSafe(merged: Components, extra: Components, inherited: set<string>, j: Json) {
    var r := ExtraRenames(merged, extra, inherited);
    forall s: Section, name ::
      Reaches(extra, j, s, name) && Deduplicated(merged, extra, r, s, name) ==>
        Untouched(Named(merged, s)[name], Later(r, s))
  }

  /** For one component: carried over exactly if it was not de-duplicated, or was left untouched. */
  lemma CarriedExactly(merged: Document, extra: Document, inherited: set<string>, target: Components, s: Section,
      name: string)
    requires name in Named(extra.components, s)
    requires Grows(MergeOne(merged, extra, inherited).components, target)
    ensures var r := ExtraRenames(merged.components, extra.components, inherited);
      Carried(extra.components, target, r, s, name) <==>
        (Deduplicated(merged.components, extra.components, r, s, name) ==>
          Untouched(Named(merged.components, s)[name], Later(r, s)))
  {
    hide MergeOne, ExtraRenames, Untouched, Rewrite;
    ComponentRepresented(merged, extra, inherited, s, name);
  }

  lemma SafeCarries(merged: Document, extra: Document, inherited: set<string>, target: Components, j: Json)
    requires ClosedComponents(extra.components) && Resolves(j, extra.components)
    requires Grows(MergeOne(merged, extra, inherited).components, target)
    requires ReachSafe(merged.components, extra.components, inherited, j)
    ensures ReachCarried(extra.components, target, ExtraRenames(merged.components, extra.components, inherited), j)
  {
    hide MergeOne, ExtraRenames, Untouched, Carried, ReachIn, Grows;
    var r := ExtraRenames(merged.components, extra.components, inherited);
    forall s: Section, name | Reaches(extra.components, j, s, name)
      ensures Carried(extra.components, target, r, s, name)
    {
      var steps: nat :| ReachIn(extra.components, j, steps, s, name);
      ReachResolves(extra.components, j, steps, s, name);
      CarriedExactly(merged, extra, inherited, target, s, name);
    }
  }

  /** A renamed component's old name is nobody's final name. */
  lemma OldNameGone(merged: Components, extra: Components, inherited: set<string>, s: Section, renamed: string,
      name: string)
    requires var r := ExtraRenames(merged, extra, inherited);
      s in r && renamed in r[s] && name in Named(extra, s)
    ensures FinalName(ExtraRenames(merged, extra, inherited), s, name) != renamed
  {
    hide ExtraRenames, SectionRenames, RewriteAll;
    var r := ExtraRenames(merged, extra, inherited);
    RenamesExplained(merged, extra, inherited, s);
    var target, source := Named(merged, s), RewriteAll(Named(extra, s), Earlier(r, s));
    RewriteAllKeys(Named(extra, s), Earlier(r, s));
    SectionSettled(target, source, inherited, renamed);
    RenamingInjective(target, source, inherited, name, name);
  }

  /** An unsafe component spoils the reach: the merged text refers to the old name of a renamed component. */
  lemma {:induction false} UnsafeSpoils(merged: Document, extra: Document, inherited: set<string>,
      target: Components, j: Json,
                                        steps: nat, s: Section, name: string)
    requires ClosedComponents(extra.components) && Resolves(j, extra.components)
    requires Grows(MergeOne(merged, extra, inherited).components, target)
    requires ReachIn(extra.components, j, steps, s, name)
    requires var r := ExtraRenames(merged.components, extra.components, inherited);
      && Deduplicated(merged.components, extra.components, r, s, name)
      && !Untouched(Named(merged.components, s)[name], Later(r, s))
    ensures !SameReach(extra.components, target, ExtraRenames(merged.components, extra.components, inherited), j)
    decreases steps
  {
    hide MergeOne, ExtraRenames, Untouched, Rewrite, Mentions, Carried, SameReach, Grows;
    var r := ExtraRenames(merged.components, extra.components, inherited);
    if i: nat, t: Section, via :|
        i < steps && ReachIn(extra.components, j, i, t, via) && !Carried(extra.components, target, r, t, via)
    {
      ReachResolves(extra.components, j, i, t, via);
      CarriedExactly(merged, extra, inherited, target, t, via);
      UnsafeSpoils(merged, extra, inherited, target, j, i, t, via);
    } else {
      ReachForward(extra.components, target, r, j, steps, s, name);
      FirstUnsafe(merged, extra, inherited, target, j, steps, s, name);
    }
  }

  lemma FirstUnsafe(merged: Document, extra: Document, inherited: set<string>, target: Components, j: Json,
                    steps: nat, s: Section, name: string)
    requires ClosedComponents(extra.components) && Resolves(j, extra.components)
    requires Grows(MergeOne(merged, extra, inherited).components, target)
    requires var r := ExtraRenames(merged.components, extra.components, inherited);
      && Deduplicated(merged.components, extra.components, r, s, name)
      && !Untouched(Named(merged.components, s)[name], Later(r, s))
      && ReachIn(target, Rewrite(j, r), steps, s, FinalName(r, s, name))
    ensures !SameReach(extra.components, target, ExtraRenames(merged.components, extra.components, inherited), j)
  {
    hide MergeOne, ExtraRenames, Untouched, Rewrite, Mentions, ReachIn;
    var r := ExtraRenames(merged.components, extra.components, inherited);
    ComponentMerged(merged, extra, inherited, s, name);
    var text := Named(merged.components, s)[name];
    TouchedMentions(text, Later(r, s));
    var t, renamed :| t in Later(r, s) && renamed in Later(r, s)[t] && Mentions(text, t, renamed);
    MentionReached(target, Rewrite(j, r), steps, s, name, t, renamed);
    if SameReach(extra.components, target, r, j) {
      var origin :| Reaches(extra.components, j, t, origin) && FinalName(r, t, origin) == renamed;
      var k: nat :| ReachIn(extra.components, j, k, t, origin);
      ReachResolves(extra.components, j, k, t, origin);
      OldNameGone(merged.components, extra.components, inherited, t, renamed, origin);
      assert false;
    }
  }

  lemma MentionReached(c: Components, j: Json, steps: nat, s: Section, via: string, t: Section, name: string)
    requires ReachIn(c, j, steps, s, via) && via in Named(c, s) && Mentions(Named(c, s)[via], t, name)
    ensures Reaches(c, j, t, name)
  {
    hide Mentions;
    assert ReachIn(c, j, steps + 1, t, name);
  }

  lemma ReachExactly(merged: Document, extra: Document, inherited: set<string>, target: Components, j: Json)
    requires ClosedComponents(extra.components) && Resolves(j, extra.components)
    requires Grows(MergeOne(merged, extra, inherited).components, target)
    ensures SameReach(extra.components, target, ExtraRenames(merged.components, extra.components, inherited), j)
       <==> ReachSafe(merged.components, extra.components, inherited, j)
  {
    hide MergeOne, ExtraRenames, Untouched, ReachIn, SameReach, Grows, ReachCarried;
    var r := ExtraRenames(merged.components, extra.components, inherited);
    if ReachSafe(merged.components, extra.components, inherited, j) {
      SafeCarries(merged, extra, inherited, target, j);
      CarriedReach(extra.components, target, r, j);
    } else {
      var s: Section, name :| Reaches(extra.components, j, s, name)
        && Deduplicated(merged.components, extra.components, r, s, name)
        && !Untouched(Named(merged.components, s)[name], Later(r, s));
      var steps: nat :| ReachIn(extra.components, j, steps, s, name);
      UnsafeSpoils(merged, extra, inherited, target, j, steps, s, name);
    }
  }

  /**
   A document has no such component anywhere if and only if every text whose references resolve in
   it is safe.
   */
  lemma DedupSafeEverywhere(merged: Components, extra: Components, inherited: set<string>)
    ensures DedupSafe(merged, extra, inherited)
       <==> forall j :: Resolves(j, extra) ==> ReachSafe(merged, extra, inherited, j)
  {
    hide ExtraRenames, Untouched, Resolves;
    if forall j :: Resolves(j, extra) ==> ReachSafe(merged, extra, inherited, j) {
      var r := ExtraRenames(merged, extra, inherited);
      forall s: Section, name | Deduplicated(merged, extra, r, s, name)
        ensures Untouched(Named(merged, s)[name], Later(r, s))
      {
        var j := Obj(map["$ref" := Str(RefTo(s, name))]);
        ReferenceResolves(extra, s, name);
        assert Mentions(j, s, name);
        MentionReaches(extra, j, s, name);
      }
    }
  }

  lemma ReferenceResolves(c: Components, s: Section, name: string)
    requires name in Named(c, s)
    ensures Resolves(Obj(map["$ref" := Str(RefTo(s, name))]), c)
  {
    forall t | RefName(RefTo(s, name), t).Some? ensures RefName(RefTo(s, name), t).value in Named(c, t) {
      SectionOfRefTo(s, name);
      SectionOfRef(RefTo(s, name), t);
    }
  }

  // ---------- the tree a reference stands for ----------

  /** `j` with each resolvable reference replaced by the component it names, down to `depth` references deep. */
  ghost function Unfold(c: Components, j: Json, depth: nat): Json
    decreases depth, 1, j, 0
  {
    match j
    case Arr(items) => Arr(seq(|items|, i requires 0 <= i < |items| => Unfold(c, items[i], depth)))
    case Obj(f) => Obj(map k | k in f :: UnfoldField(c, k, f[k], depth))
    case _ => j
  }

  ghost function UnfoldField(c: Components, key: string, value: Json, depth: nat): Json
    decreases depth, 1, value, 1
  {
    if key == "$ref" && value.Str? then UnfoldRef(c, value.s, depth) else Unfold(c, value, depth)
  }

  ghost function UnfoldRef(c: Components, ref: string, depth: nat): Json
    decreases depth, 0
  {
    match SectionOf(ref)
    case None => Str(ref)
    case Some(s) =>
      var name := RefName(ref, s).value;
      if name !in Named(c, s) then Str(ref)
      else if depth == 0 then Null
      else Unfold(c, Named(c, s)[name], depth - 1)
  }

  lemma {:induction false} ReachMonotone(c: Components, part: Json, j: Json, steps: nat, s: Section, name: string)
    requires forall t: Section, n :: Mentions(part, t, n) ==> Mentions(j, t, n)
    requires ReachIn(c, part, steps, s, name)
    ensures ReachIn(c, j, steps, s, name)
  {
    hide Mentions;
    if steps > 0 {
      var t: Section, via :| ReachIn(c, part, steps - 1, t, via)
        && via in Named(c, t) && Mentions(Named(c, t)[via], s, name);
      ReachMonotone(c, part, j, steps - 1, t, via);
    }
  }

  lemma PartCarried(source: Components, target: Components, r: Renames, part: Json, j: Json)
    requires ReachCarried(source, target, r, j)
    requires forall t: Section, n :: Mentions(part, t, n) ==> Mentions(j, t, n)
    ensures ReachCarried(source, target, r, part)
  {
    hide Mentions, Carried, ReachIn;
    forall s: Section, name | Reaches(source, part, s, name) ensures Carried(source, target, r, s, name) {
      var steps: nat :| ReachIn(source, part, steps, s, name);
      ReachMonotone(source, part, j, steps, s, name);
      assert Reaches(source, j, s, name);
    }
  }

  lemma ComponentCarried(source: Components, target: Components, r: Renames, j: Json, t: Section, via: string)
    requires ReachCarried(source, target, r, j)
    requires Mentions(j, t, via) && via in Named(source, t)
    ensures Carried(source, target, r, t, via)
    ensures ReachCarried(source, target, r, Named(source, t)[via])
  {
    hide Mentions, Carried, ReachIn;
    assert Reaches(source, j, t, via) by { MentionReaches(source, j, t, via); }
    forall s: Section, name | Reaches(source, Named(source, t)[via], s, name)
      ensures Carried(source, target, r, s, name)
    {
      var steps: nat :| ReachIn(source, Named(source, t)[via], steps, s, name);
      ReachThrough(source, j, t, via, steps, s, name);
      assert Reaches(source, j, s, name);
    }
  }

  lemma MentionReaches(c: Components, j: Json, s: Section, name: string)
    requires Mentions(j, s, name)
    ensures Reaches(c, j, s, name)
  {
    assert ReachIn(c, j, 0, s, name);
  }

  lemma {:induction false} UnfoldRefPreserved(source: Components, target: Components, r: Renames, j: Json,
      ref: string, depth: nat)
    requires ReachCarried(source, target, r, j) && ClosedComponents(source) && RefResolves(ref, source)
    requires forall s: Section, name :: ref == RefTo(s, name) ==> Mentions(j, s, name)
    ensures UnfoldRef(target, NewRef(ref, r), depth) == UnfoldRef(source, ref, depth)
    decreases depth, 0
  {
    hide Rewrite, Mentions, ReachCarried, FinalName, Unfold, Resolves;
    var s := SectionOf(ref);
    if s.Some? {
      var name := RefName(ref, s.value).value;
      RefToOfRefName(ref, s.value);
      NewRefOf(r, s.value, name);
      SectionOfRefTo(s.value, FinalName(r, s.value, name));
      ComponentCarried(source, target, r, j, s.value, name);
      if depth > 0 {
        UnfoldPreserved(source, target, r, Named(source, s.value)[name], depth - 1);
      }
    }
  }

  /** Rewritten text unfolds in the target to what the original unfolds to, if all it reaches is carried over. */
  lemma {:induction false} UnfoldPreserved(source: Components, target: Components, r: Renames, j: Json, depth: nat)
    requires ReachCarried(source, target, r, j) && ClosedComponents(source) && Resolves(j, source)
    ensures Unfold(target, Rewrite(j, r), depth) == Unfold(source, j, depth)
    decreases depth, 1, j
  {
    hide ReachCarried, ClosedComponents, UnfoldRef, NewRef;
    match j
    case Arr(items) =>
      forall i | 0 <= i < |items|
        ensures Unfold(target, Rewrite(items[i], r), depth) == Unfold(source, items[i], depth)
      {
        PartCarried(source, target, r, items[i], j);
        UnfoldPreserved(source, target, r, items[i], depth);
      }
    case Obj(f) =>
      forall k | k in f
        ensures UnfoldField(target, k, RewriteField(k, f[k], r), depth) == UnfoldField(source, k, f[k], depth)
      {
        RewriteKeepsStrings(f[k], r);
        if k == "$ref" && f[k].Str? {
          UnfoldRefPreserved(source, target, r, j, f[k].s, depth);
        } else {
          PartCarried(source, target, r, f[k], j);
          UnfoldPreserved(source, target, r, f[k], depth);
        }
      }
    case _ =>
  }

  // ---------- kept paths ----------

  /**
   A kept path of an extra document reaches in the merged document exactly the components it
   reaches in its own, under their final names, if and only if no de-duplicated component that it
   reaches refers to one renamed in the same or a later section. Other documents do not matter.
   */
  lemma PathReachExactly(base: Document, extras: seq<Document>, inherited: set<string>, p: string, i: nat)
    requires i < |extras| && Owner(base, extras, inherited, p, i)
    requires Closed(extras[i])
    ensures var merged, r := MergeAll(base, extras, inherited), RenamesAt(base, extras, inherited, i);
      && p in merged.paths
      && merged.paths[p] == Rewrite(extras[i].paths[p], r)
      && (SameReach(extras[i].components, merged.components, r, extras[i].paths[p]) <==>
           ReachSafe(Seen(base, extras, inherited, i).components, extras[i].components, inherited, extras[i].paths[p]))
  {
    hide MergeOne, ExtraRenames, Rewrite, SameReach, ReachSafe;
    OwnedPath(base, extras, inherited, p, i);
    ReachExactly(Seen(base, extras, inherited, i), extras[i], inherited,
                 MergeAll(base, extras, inherited).components, extras[i].paths[p]);
  }

  /**
   Under that condition the path means in the merged document what it meant in its own, at every
   depth.
   */
  lemma MeaningPreserved(base: Document, extras: seq<Document>, inherited: set<string>, p: string, i: nat, depth: nat)
    requires i < |extras| && Owner(base, extras, inherited, p, i)
    requires Closed(extras[i])
    requires ReachSafe(Seen(base, extras, inherited, i).components, extras[i].components, inherited, extras[i].paths[p])
    ensures var merged := MergeAll(base, extras, inherited);
      && p in merged.paths
      && Unfold(merged.components, merged.paths[p], depth) == Unfold(extras[i].components, extras[i].paths[p], depth)
  {
    hide MergeOne, ExtraRenames, Rewrite, ReachCarried, ReachSafe, Unfold;
    var merged := MergeAll(base, extras, inherited).components;
    OwnedPath(base, extras, inherited, p, i);
    SafeCarries(Seen(base, extras, inherited, i), extras[i], inherited, merged, extras[i].paths[p]);
    UnfoldPreserved(extras[i].components, merged, RenamesAt(base, extras, inherited, i), extras[i].paths[p], depth);
  }

  lemma GrowsCarries(a: Components, b: Components, none: Renames, j: Json)
    requires Grows(a, b) && ClosedComponents(a) && Resolves(j, a)
    requires forall s :: s in none ==> none[s] == map[]
    ensures ReachCarried(a, b, none, j)
  {
    hide Rewrite, Resolves;
    forall s: Section, name | Reaches(a, j, s, name) ensures Carried(a, b, none, s, name) {
      var steps: nat :| ReachIn(a, j, steps, s, name);
      ReachResolves(a, j, steps, s, name);
      NothingRenamed(Named(a, s)[name], none);
    }
  }

  lemma NothingRenamed(j: Json, none: Renames)
    requires forall s :: s in none ==> none[s] == map[]
    ensures Rewrite(j, none) == j
  {
    NothingTouched(j, none);
    RewriteFixed(j, none);
  }

  lemma GrowsUnfold(a: Components, b: Components, j: Json, depth: nat)
    requires Grows(a, b) && ClosedComponents(a) && Resolves(j, a)
    ensures Unfold(b, j, depth) == Unfold(a, j, depth)
  {
    GrowsCarries(a, b, map[], j);
    NothingRenamed(j, map[]);
    UnfoldPreserved(a, b, map[], j, depth);
  }

  /** The base document's paths mean what they meant. */
  lemma BaseMeaningPreserved(base: Document, extras: seq<Document>, inherited: set<string>, p: string, depth: nat)
    requires Closed(base) && p in base.paths
    ensures var merged := MergeAll(base, extras, inherited);
      && p in merged.paths
      && Unfold(merged.components, merged.paths[p], depth) == Unfold(base.components, base.paths[p], depth)
  {
    hide MergeAll, Unfold;
    BaseKept(base, extras, inherited);
    GrowsUnfold(base.components, MergeAll(base, extras, inherited).components, base.paths[p], depth);
  }

  // ---------- why the condition on de-duplicated components is needed ----------

  function RefObject(name: string): Json {
    Obj(map["$ref" := Str(RefTo(Schemas, name))])
  }

  /** Schema `A` refers to schema `B`, whose text depends on `n`. */
  function Sample(paths: map<string, Json>, n: int): Document {
    Document(paths, map[Schemas := map["A" := RefObject("B"), "B" := Obj(map["const" := Num(n)])]])
  }

  lemma UnfoldA(c: Components, n: int)
    requires "A" in Named(c, Schemas) && Named(c, Schemas)["A"] == RefObject("B")
    requires "B" in Named(c, Schemas) && Named(c, Schemas)["B"] == Obj(map["const" := Num(n)])
    ensures Unfold(c, RefObject("A"), 2)
         == Obj(map["$ref" := Obj(map["$ref" := Obj(map["const" := Num(n)])])])
  {
    SectionOfRefTo(Schemas, "A");
    SectionOfRefTo(Schemas, "B");
    var b := Obj(map["const" := Num(n)]);
    assert UnfoldField(c, "const", Num(n), 0) == Num(n);
    assert Unfold(c, b, 0).fields == b.fields;
    assert UnfoldRef(c, RefTo(Schemas, "B"), 1) == b;
    var a := Obj(map["$ref" := b]);
    assert Unfold(c, RefObject("B"), 1) == a;
    assert UnfoldRef(c, RefTo(Schemas, "A"), 2) == a;
  }

  lemma TreesDiffer(m: int, n: int)
    requires m != n
    ensures Obj(map["$ref" := Obj(map["$ref" := Obj(map["const" := Num(m)])])])
         != Obj(map["$ref" := Obj(map["$ref" := Obj(map["const" := Num(n)])])])
  {
    assert map["const" := Num(m)]["const"] != map["const" := Num(n)]["const"];
    var a, b := Obj(map["const" := Num(m)]), Obj(map["const" := Num(n)]);
    assert map["$ref" := a]["$ref"] != map["$ref" := b]["$ref"];
    var c, d := Obj(map["$ref" := a]), Obj(map["$ref" := b]);
    assert map["$ref" := c]["$ref"] != map["$ref" := d]["$ref"];
  }

  lemma SampleClosed(paths: map<string, Json>, n: int)
    requires forall p :: p in paths ==> paths[p] == RefObject("A")
    ensures Closed(Sample(paths, n))
  {
    var d := Sample(paths, n);
    forall name, s | name in ["A", "B"] && RefName(RefTo(Schemas, name), s).Some?
      ensures RefName(RefTo(Schemas, name), s).value in Named(d.components, s)
    {
      SectionOfRefTo(Schemas, name);
      SectionOfRef(RefTo(Schemas, name), s);
    }
    assert RefResolves(RefTo(Schemas, "A"), d.components) && RefResolves(RefTo(Schemas, "B"), d.components);
  }

  /**
   Where a de-duplicated component refers to a renamed one, a kept path can
   change its meaning: both documents have the same `A`, which refers to `B`,
   and the two `B` differ. The merged path reaches the base's `B`.
   */
  lemma DedupLosesMeaning(m: int, n: int)
    requires m != n
    ensures var base, extra := Sample(map[], m), Sample(map["/a" := RefObject("A")], n);
      var merged := MergeAll(base, [extra], {});
      && Closed(base) && Closed(extra)
      && !ReachSafe(base.components, extra.components, {}, extra.paths["/a"])
      && "/a" in merged.paths
      && Unfold(merged.components, merged.paths["/a"], 2) != Unfold(extra.components, extra.paths["/a"], 2)
  {
    hide MergeOne, ExtraRenames, SectionRenames, Closed, ReachSafe, Unfold;
    var base, extra := Sample(map[], m), Sample(map["/a" := RefObject("A")], n);
    var merged := MergeAll(base, [extra], {});
    SampleClosed(map[], m);
    SampleClosed(map["/a" := RefObject("A")], n);
    assert [extra][..0] == [];
    var r := RenamesAt(base, [extra], {}, 0);
    OwnedPath(base, [extra], {}, "/a", 0);
    SharedNotRenamed(m, n);
    SectionOfRefTo(Schemas, "A");
    assert NewRef(RefTo(Schemas, "A"), r) == RefTo(Schemas, "A");
    assert merged.paths["/a"] == RefObject("A");
    BaseKept(base, [extra], {});
    assert "A" in Named(base.components, Schemas) && "B" in Named(base.components, Schemas);
    UnfoldA(merged.components, m);
    UnfoldA(extra.components, n);
    TreesDiffer(m, n);
    assert !ReachSafe(base.components, extra.components, {}, extra.paths["/a"]) by {
      if ReachSafe(base.components, extra.components, {}, extra.paths["/a"]) {
        MeaningPreserved(base, [extra], {}, "/a", 0, 2);
        assert false;
      }
    }
  }

  lemma SharedNotRenamed(m: int, n: int)
    ensures var base, extra := Sample(map[], m), Sample(map["/a" := RefObject("A")], n);
      var r := ExtraRenames(base.components, extra.components, {});
      Schemas in r && "A" !in r[Schemas]
  {
    hide ExtraRenames;
    var base, extra := Sample(map[], m), Sample(map["/a" := RefObject("A")], n);
    var r := ExtraRenames(base.components, extra.components, {});
    RenamesExplained(base.components, extra.components, {}, Schemas);
    assert Earlier(r, Schemas) == map[];
    NothingTouched(RefObject("B"), map[]);
    RewriteFixed(RefObject("B"), map[]);
  }
}
