/**
 Components that are named without a reference: a security requirement names
 its scheme by key, a discriminator can name a schema by its plain name. Such
 names are not rewritten.
 */
module MergeNames {
  import opened Json
  import opened Merge
  import opened MergeMeaning
  import opened MergeReach

  /** Under the old name the target holds the component of the extra document, its references rewritten. */
  predicate SameUnderName(extra: Components, target: Components, r: Renames, s: Section, name: string)
    requires name in Named(extra, s)
  {
    name in Named(target, s) && Named(target, s)[name] == Rewrite(Named(extra, s)[name], r)
  }

  /** The component was not renamed, and if an equal one stands for it that one was left untouched. */
  predicate NameSafe(merged: Components, extra: Components, inherited: set<string>, s: Section, name: string) {
    var r := ExtraRenames(merged, extra, inherited);
    && (s in r ==> name !in r[s])
    && (Deduplicated(merged, extra, r, s, name) ==> Untouched(Named(merged, s)[name], Later(r, s)))
  }

  // ---------- a renamed component's old name ----------

  /** New names are not names of the target. */
  lemma NewNameUnused(merged: Components, extra: Components, inherited: set<string>, s: Section, name: string)
    requires var r := ExtraRenames(merged, extra, inherited); s in r && name in r[s]
    ensures var r := ExtraRenames(merged, extra, inherited);
      && r[s][name] !in Named(merged, s) && name in Named(extra, s)
      && (name !in Named(merged, s) ==> name in inherited)
      && (name in Named(merged, s) ==> Named(merged, s)[name] != Rewrite(Named(extra, s)[name], Earlier(r, s)))
  {
    hide ExtraRenames, Rewrite;
    var r := ExtraRenames(merged, extra, inherited);
    RenamesExplained(merged, extra, inherited, s);
    RewriteAllKeys(Named(extra, s), Earlier(r, s));
    RenamingInjective(Named(merged, s), RewriteAll(Named(extra, s), Earlier(r, s)), inherited, name, name);
  }

  /**
   The target's entry under a renamed component's old name is another one: it cannot refer to the
   new names, which it would have to if it were the rewritten text.
   */
  lemma RenamedDiffers(merged: Components, extra: Components, inherited: set<string>, s: Section, name: string)
    requires ClosedComponents(merged)
    requires var r := ExtraRenames(merged, extra, inherited); s in r && name in r[s]
    requires name in Named(merged, s) && name in Named(extra, s)
    ensures Named(merged, s)[name] != Rewrite(Named(extra, s)[name], ExtraRenames(merged, extra, inherited))
  {
    hide ExtraRenames, Rewrite, Untouched, Mentions, Resolves;
    var r := ExtraRenames(merged, extra, inherited);
    var text := Named(extra, s)[name];
    var compared := Rewrite(text, Earlier(r, s));
    NewNameUnused(merged, extra, inherited, s, name);
    RewriteCompose(text, Earlier(r, s), Later(r, s));
    assert Earlier(r, s) + Later(r, s) == r;
    RenamesSettled(merged, extra, inherited);
    RewriteFixed(compared, Later(r, s));
    if !Untouched(compared, Later(r, s)) {
      TouchedMentions(compared, Later(r, s));
      var t, gone :| t in Later(r, s) && gone in Later(r, s)[t] && Mentions(compared, t, gone);
      MentionsForward(compared, Later(r, s), t, gone);
      NewNameUnused(merged, extra, inherited, t, gone);
      if Named(merged, s)[name] == Rewrite(text, r) {
        MentionResolves(Named(merged, s)[name], merged, t, r[t][gone]);
        assert false;
      }
    }
  }

  // ---------- names every object inherits ----------

  lemma StepInherited(merged: Document, extra: Document, inherited: set<string>, s: Section, name: string)
    requires name in inherited && name in Named(MergeOne(merged, extra, inherited).components, s)
    ensures name in Named(merged.components, s)
  {
    hide ExtraRenames, Rewrite;
    var r := ExtraRenames(merged.components, extra.components, inherited);
    if name !in Named(merged.components, s) {
      var source := SourceName(extra.components[s], r[s], name);
      FinalNotInherited(merged.components, extra.components, inherited, s, source);
      assert false;
    }
  }

  lemma FinalNotInherited(merged: Components, extra: Components, inherited: set<string>, s: Section, name: string)
    requires name in Named(extra, s)
    ensures var r := ExtraRenames(merged, extra, inherited);
      s in r && (Final(r[s], name) in inherited ==> Final(r[s], name) in Named(merged, s))
  {
    hide ExtraRenames, Rewrite;
    var r := ExtraRenames(merged, extra, inherited);
    RenamesExplained(merged, extra, inherited, s);
    RewriteAllKeys(Named(extra, s), Earlier(r, s));
    RenamingInjective(Named(merged, s), RewriteAll(Named(extra, s), Earlier(r, s)), inherited, name, name);
  }

  /** No merge gives a component a name that every object inherits. */
  lemma {:induction false} InheritedStayOut(base: Document, extras: seq<Document>, inherited: set<string>, i: nat,
      s: Section, name: string)
    requires i <= |extras| && name in inherited
    requires name in Named(MergeAll(base, extras, inherited).components, s)
    ensures name in Named(MergeAll(base, extras[..i], inherited).components, s)
    decreases |extras|
  {
    hide MergeOne;
    if i == |extras| {
      assert extras[..i] == extras;
    } else {
      var last := |extras| - 1;
      StepInherited(MergeAll(base, extras[..last], inherited), extras[last], inherited, s, name);
      InheritedStayOut(base, extras[..last], inherited, i, s, name);
      assert extras[..last][..i] == extras[..i];
    }
  }

  // ---------- exactly when a name keeps its meaning ----------

  /**
   A component of an extra document is found under its old name in the merged document, as a
   requirement or a discriminator of a kept path looks it up, if and only if it was not renamed and
   was not de-duplicated against one that refers to a component renamed later.
   */
  lemma NamedExactly(base: Document, extras: seq<Document>, inherited: set<string>, i: nat, s: Section, name: string)
    requires i < |extras| && name in Named(extras[i].components, s)
    requires Closed(base) && forall j :: 0 <= j < i ==> Closed(extras[j])
    ensures SameUnderName(extras[i].components, MergeAll(base, extras, inherited).components,
                          RenamesAt(base, extras, inherited, i), s, name)
       <==> NameSafe(Seen(base, extras, inherited, i).components, extras[i].components, inherited, s, name)
  {
    hide MergeOne, ExtraRenames, Rewrite, Untouched, Resolves;
    var seen, extra := Seen(base, extras, inherited, i), extras[i];
    var merged, r := MergeAll(base, extras, inherited), RenamesAt(base, extras, inherited, i);
    MergeClosed(base, extras[..i], inherited);
    MergeGrows(base, extras, i, inherited);
    MergeGrows(base, extras, i + 1, inherited);
    assert extras[..i + 1][..i] == extras[..i];
    RenamesExplained(seen.components, extra.components, inherited, s);
    if name in r[s] {
      NewNameUnused(seen.components, extra.components, inherited, s, name);
      if name in Named(seen.components, s) {
        RenamedDiffers(seen.components, extra.components, inherited, s, name);
      } else if name in Named(merged.components, s) {
        InheritedStayOut(base, extras, inherited, i, s, name);
      }
    } else {
      CarriedExactly(seen, extra, inherited, merged.components, s, name);
    }
  }

  // ---------- which names, letter for letter ----------

  /** The references that are followed, as they are written. */
  lemma ReferenceText(name: string)
    ensures RefTo(Schemas, name) == "#/components/schemas/" + name
    ensures RefTo(Responses, name) == "#/components/responses/" + name
    ensures RefTo(Parameters, name) == "#/components/parameters/" + name
    ensures RefTo(SecuritySchemes, name) == "#/components/securitySchemes/" + name
  {
    assert "#/components/" + "schemas" + "/" == "#/components/schemas/";
    assert "#/components/" + "responses" + "/" == "#/components/responses/";
    assert "#/components/" + "parameters" + "/" == "#/components/parameters/";
    assert "#/components/" + "securitySchemes" + "/" == "#/components/securitySchemes/";
  }

  /** The number that decimal digits stand for. */
  function NumberOf(digits: string): int {
    if digits == "" then 0
    else 10 * NumberOf(digits[..|digits| - 1]) + (digits[|digits| - 1] as int - '0' as int)
  }

  lemma {:induction false} DecimalReads(n: nat)
    ensures NumberOf(Decimal(n)) == n
    ensures forall i :: 0 <= i < |Decimal(n)| ==> '0' <= Decimal(n)[i] <= '9'
    ensures n > 0 ==> Decimal(n)[0] != '0'
  {
    if n < 10 {
      assert Decimal(n)[..0] == "";
    } else {
      DecimalReads(n / 10);
      assert Decimal(n)[..|Decimal(n)| - 1] == Decimal(n / 10);
    }
  }

  /**
   A component is renamed exactly if the target has another under its name, its own references to
   earlier sections being renamed already, or if every object inherits the name; and then to the name
   with the least number from 2 behind an underscore that neither document, nor every object, has.
   */
  lemma RenamedExactly(merged: Components, extra: Components, inherited: set<string>, s: Section, name: string)
    requires name in Named(extra, s)
    ensures var r := ExtraRenames(merged, extra, inherited);
      && s in r
      && (name in r[s] <==>
            if name in Named(merged, s) then Named(merged, s)[name] != Rewrite(Named(extra, s)[name], Earlier(r, s))
            else name in inherited)
      && (name in r[s] ==> exists k: nat ::
            && 2 <= k && r[s][name] == name + "_" + Decimal(k)
            && Free(merged, extra, inherited, s, name, k)
            && forall j: nat :: 2 <= j < k ==> !Free(merged, extra, inherited, s, name, j))
  {
    hide ExtraRenames, Rewrite, FirstFree;
    var r := ExtraRenames(merged, extra, inherited);
    RenamesExplained(merged, extra, inherited, s);
    var source := RewriteAll(Named(extra, s), Earlier(r, s));
    RewriteAllKeys(Named(extra, s), Earlier(r, s));
    if name in r[s] {
      SuffixFound(Named(merged, s), source, inherited, name);
      var taken := Taken(Named(merged, s), source, inherited);
      var k: nat :| 2 <= k && r[s][name] == Suffixed(name, k) && Suffixed(name, k) !in taken
        && forall j: nat :: 2 <= j < k ==> Suffixed(name, j) in taken;
      assert r[s][name] == name + "_" + Decimal(k);
      assert Free(merged, extra, inherited, s, name, k);
      forall j: nat | 2 <= j < k ensures !Free(merged, extra, inherited, s, name, j) {
        assert Suffixed(name, j) in taken;
      }
    }
  }

  /** Nobody has the name with this number. */
  predicate Free(merged: Components, extra: Components, inherited: set<string>, s: Section, name: string, k: nat) {
    var candidate := name + "_" + Decimal(k);
    candidate !in Named(merged, s) && candidate !in Named(extra, s) && candidate !in inherited
  }

  lemma SuffixFound(target: ComponentMap, source: ComponentMap, inherited: set<string>, name: string)
    requires name in SectionRenames(target, source, inherited)
    ensures exists k: nat ::
      && 2 <= k && SectionRenames(target, source, inherited)[name] == Suffixed(name, k)
      && Suffixed(name, k) !in Taken(target, source, inherited)
      && forall j: nat :: 2 <= j < k ==> Suffixed(name, j) in Taken(target, source, inherited)
  {
    assert FirstFree(Candidate(name, 2, Taken(target, source, inherited)), name, 2, Taken(target, source, inherited));
  }
}
