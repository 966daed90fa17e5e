/**
 Entity resolution: candidates are folded one by one into the known entities, kept by id in insertion
 order.  A candidate either merges into the entity it is found to name or becomes a new one; names only
 accumulate, so a candidate once resolved is found again.
 */
module EntityResolver {
  import opened Wrappers

  datatype Entity = Entity(
    id: string, kind: string, canonical: string, aliases: seq<string>, importance: int, trend: int)

  /** Absent metadata fields are empty. */
  datatype Candidate = Candidate(
    name: string, kind: string, id: string, aliases: seq<string>, matchedAlias: string, importance: int, trend: int)

  /** Trimming, case folding, the normalized matching key, the alias map by key, type inference and
      stable ids. */
  datatype Library = Library(
    strip: string -> string,
    fold: string -> string,
    key: string -> string,
    canonicalOf: map<string, string>,
    infer: (string, Candidate) -> string,
    stableId: (string, string) -> string)

  /** What is used of the text functions: trimming is idempotent and commutes with folding as far as
      equality goes, the key sees only the trimmed, folded text, and the alias map names nothing blank. */
  ghost predicate Laws(lib: Library) {
    && (forall x :: lib.strip(lib.strip(x)) == lib.strip(x))
    && (forall x, y :: lib.fold(x) == lib.fold(y) ==> lib.fold(lib.strip(x)) == lib.fold(lib.strip(y)))
    && (forall x, y :: lib.fold(lib.strip(x)) == lib.fold(lib.strip(y)) ==> lib.key(x) == lib.key(y))
    && (forall x :: lib.fold(x) == "" <==> x == "")
    && (forall k :: k in lib.canonicalOf ==> lib.strip(lib.canonicalOf[k]) != "")
  }

  // ---------------------------------------------------------------- names

  predicate Has(lib: Library, texts: seq<string>, folded: string) {
    exists i :: 0 <= i < |texts| && lib.fold(texts[i]) == folded
  }

  /** Trimmed, non-blank texts, the first of each folding. */
  function UniqueTexts(lib: Library, values: seq<string>): seq<string> {
    if values == [] then []
    else
      var front := UniqueTexts(lib, values[..|values| - 1]);
      var text := lib.strip(values[|values| - 1]);
      if text == "" || Has(lib, front, lib.fold(text)) then front else front + [text]
  }

  /** The loop of `all_names`: every folded name once, in the spelling that came first, trimmed. */
  method UniqueTextLoop(lib: Library, values: seq<string>) returns (result: seq<string>)
    ensures result == UniqueTexts(lib, values)
    ensures Laws(lib) ==> AllTrimmed(lib, result) && FoldedApart(lib, result)
    ensures Laws(lib) ==> forall f :: Has(lib, result, f) <==> Names(lib, values, f)
  {
    var seen: set<string> := {};
    result := [];
    for i := 0 to |values|
      invariant result == UniqueTexts(lib, values[..i])
      invariant forall f :: f in seen <==> Has(lib, result, f)
    {
      assert values[..i + 1][..i] == values[..i];
      var text := lib.strip(values[i]);
      var folded := lib.fold(text);
      if text != "" && folded !in seen {
        HasSnoc(lib, result, text);
        seen := seen + {folded};
        result := result + [text];
      }
    }
    assert values[..|values|] == values;
    if Laws(lib) {
      UniqueTextsKeepNames(lib, values);
    }
  }

  lemma {:induction false} HasSnoc(lib: Library, texts: seq<string>, text: string)
    ensures forall f :: Has(lib, texts + [text], f) <==> Has(lib, texts, f) || f == lib.fold(text)
  {
    forall f
      ensures Has(lib, texts + [text], f) <==> Has(lib, texts, f) || f == lib.fold(text)
    {
      if Has(lib, texts, f) {
        var i :| 0 <= i < |texts| && lib.fold(texts[i]) == f;
        assert (texts + [text])[i] == texts[i];
      }
      assert (texts + [text])[|texts|] == text;
    }
  }

  /** The folded names a list of texts stands for. */
  ghost predicate Names(lib: Library, texts: seq<string>, folded: string) {
    exists i :: 0 <= i < |texts| && lib.strip(texts[i]) != "" && lib.fold(lib.strip(texts[i])) == folded
  }

  lemma {:induction false} NamesSnoc(lib: Library, texts: seq<string>, text: string)
    ensures forall f :: Names(lib, texts + [text], f) <==>
                        Names(lib, texts, f) || (lib.strip(text) != "" && f == lib.fold(lib.strip(text)))
  {
    forall f
      ensures Names(lib, texts + [text], f) <==>
              Names(lib, texts, f) || (lib.strip(text) != "" && f == lib.fold(lib.strip(text)))
    {
      if Names(lib, texts, f) {
        var i :| 0 <= i < |texts| && lib.strip(texts[i]) != "" && lib.fold(lib.strip(texts[i])) == f;
        assert (texts + [text])[i] == texts[i];
      }
      assert (texts + [text])[|texts|] == text;
    }
  }

  /** Uniquifying keeps every name, and leaves each one once, trimmed. */
  lemma {:induction false} UniqueTextsKeepNames(lib: Library, values: seq<string>)
    requires Laws(lib)
    ensures forall f :: Has(lib, UniqueTexts(lib, values), f) <==> Names(lib, values, f)
    ensures forall f :: Names(lib, UniqueTexts(lib, values), f) <==> Names(lib, values, f)
    ensures AllTrimmed(lib, UniqueTexts(lib, values)) && FoldedApart(lib, UniqueTexts(lib, values))
  {
    if values != [] {
      var front, last := values[..|values| - 1], values[|values| - 1];
      assert values == front + [last];
      UniqueTextsKeepNames(lib, front);
      NamesSnoc(lib, front, last);
      HasSnoc(lib, UniqueTexts(lib, front), lib.strip(last));
      NamesSnoc(lib, UniqueTexts(lib, front), lib.strip(last));
      assert !Has(lib, UniqueTexts(lib, front), lib.fold(lib.strip(last))) ==>
          FoldedApart(lib, UniqueTexts(lib, front) + [lib.strip(last)]);
    }
  }

  predicate AllTrimmed(lib: Library, texts: seq<string>) {
    forall i :: 0 <= i < |texts| ==> texts[i] != "" && lib.strip(texts[i]) == texts[i]
  }

  predicate FoldedApart(lib: Library, texts: seq<string>) {
    forall i, j :: 0 <= i < j < |texts| ==> lib.fold(texts[i]) != lib.fold(texts[j])
  }

  function AllNames(lib: Library, e: Entity): seq<string> {
    UniqueTexts(lib, [e.canonical] + e.aliases)
  }

  ghost predicate Named(lib: Library, e: Entity, folded: string) {
    Names(lib, [e.canonical] + e.aliases, folded)
  }

  function Without(lib: Library, names: seq<string>, folded: string): seq<string> {
    if names == [] then []
    else Without(lib, names[..|names| - 1], folded) +
         if lib.fold(names[|names| - 1]) != folded then [names[|names| - 1]] else []
  }

  function Kept(lib: Library, e: Entity): seq<string> {
    Without(lib, AllNames(lib, e), lib.fold(e.canonical))
  }

  function WithAlias(lib: Library, e: Entity, alias: string): Entity {
    var text := lib.strip(alias);
    if text == "" then e
    else
      var aliases := Kept(lib, e);
      e.(aliases := aliases +
           if lib.fold(text) != lib.fold(e.canonical) && !Has(lib, aliases, lib.fold(text)) then [text] else [])
  }

  lemma {:induction false} WithoutKeeps(lib: Library, names: seq<string>, folded: string)
    requires AllTrimmed(lib, names)
    ensures var r := Without(lib, names, folded);
            && AllTrimmed(lib, r)
            && (forall f :: Has(lib, r, f) <==> Has(lib, names, f) && f != folded)
            && (forall f :: Names(lib, r, f) <==> Has(lib, r, f))
  {
    if names != [] {
      var front, last := names[..|names| - 1], names[|names| - 1];
      assert names == front + [last];
      WithoutKeeps(lib, front, folded);
      HasSnoc(lib, front, last);
      HasSnoc(lib, Without(lib, front, folded), last);
      NamesSnoc(lib, Without(lib, front, folded), last);
      assert Without(lib, front, folded) + [] == Without(lib, front, folded);
    }
  }

  lemma {:induction false} NamesCons(lib: Library, text: string, texts: seq<string>)
    ensures forall f :: Names(lib, [text] + texts, f) <==>
                        Names(lib, texts, f) || (lib.strip(text) != "" && f == lib.fold(lib.strip(text)))
  {
    forall f
      ensures Names(lib, [text] + texts, f) <==>
              Names(lib, texts, f) || (lib.strip(text) != "" && f == lib.fold(lib.strip(text)))
    {
      if Names(lib, texts, f) {
        var i :| 0 <= i < |texts| && lib.strip(texts[i]) != "" && lib.fold(lib.strip(texts[i])) == f;
        assert ([text] + texts)[i + 1] == texts[i];
      }
      if Names(lib, [text] + texts, f) {
        var i :| 0 <= i < |texts| + 1 && lib.strip(([text] + texts)[i]) != "" && lib.fold(lib.strip(([text] + texts)[i])) == f;
        assert i > 0 ==> ([text] + texts)[i] == texts[i - 1];
      }
      assert ([text] + texts)[0] == text;
    }
  }

  /** Rebuilding the aliases from all names loses none. */
  lemma {:induction false} KeptKeepsNames(lib: Library, e: Entity, f: string)
    requires Laws(lib)
    ensures Names(lib, [e.canonical] + Kept(lib, e), f) <==> Named(lib, e, f)
    ensures Names(lib, Kept(lib, e), f) <==> Has(lib, Kept(lib, e), f)
  {
    UniqueTextsKeepNames(lib, [e.canonical] + e.aliases);
    assert AllTrimmed(lib, AllNames(lib, e));
    WithoutKeeps(lib, AllNames(lib, e), lib.fold(e.canonical));
    NamesCons(lib, e.canonical, Kept(lib, e));
    NamesCons(lib, e.canonical, e.aliases);
    CanonicalFolds(lib, e, lib.strip(e.canonical));
  }

  /** Adding an alias adds exactly that name. */
  lemma {:induction false} WithAliasAddsName(lib: Library, e: Entity, alias: string)
    requires Laws(lib)
    ensures forall f :: Named(lib, WithAlias(lib, e, alias), f) <==>
                        Named(lib, e, f) || (lib.strip(alias) != "" && f == lib.fold(lib.strip(alias)))
  {
    var text := lib.strip(alias);
    if text != "" {
      var kept := Kept(lib, e);
      var r := WithAlias(lib, e, alias);
      CanonicalFolds(lib, e, text);
      forall f
        ensures Named(lib, r, f) <==> Named(lib, e, f) || f == lib.fold(text)
      {
        KeptKeepsNames(lib, e, f);
        KeptKeepsNames(lib, e, lib.fold(text));
        NamesCons(lib, e.canonical, kept);
        if r.aliases == kept + [text] {
          NamesSnoc(lib, kept, text);
          NamesCons(lib, e.canonical, kept + [text]);
        } else {
          assert r.aliases == kept;
        }
      }
    }
  }

  /** A trimmed text that folds like the canonical name is that name; so is any name that does. */
  lemma {:induction false} CanonicalFolds(lib: Library, e: Entity, text: string)
    requires Laws(lib) && lib.strip(text) == text
    ensures text != "" && lib.fold(text) == lib.fold(e.canonical) ==>
              lib.strip(e.canonical) != "" && lib.fold(lib.strip(e.canonical)) == lib.fold(text)
    ensures Has(lib, AllNames(lib, e), lib.fold(e.canonical)) ==>
              lib.strip(e.canonical) != "" && lib.fold(lib.strip(e.canonical)) == lib.fold(e.canonical)
  {
    var all := AllNames(lib, e);
    UniqueTextsKeepNames(lib, [e.canonical] + e.aliases);
    if Has(lib, all, lib.fold(e.canonical)) {
      var i :| 0 <= i < |all| && lib.fold(all[i]) == lib.fold(e.canonical);
      assert lib.fold(lib.strip(all[i])) == lib.fold(lib.strip(e.canonical));
    }
  }

  // ---------------------------------------------------------------- resolving

  function Canonicalize(lib: Library, name: string): string {
    var k := lib.key(name);
    if k in lib.canonicalOf && lib.canonicalOf[k] != "" then lib.canonicalOf[k] else lib.strip(name)
  }

  function Build(lib: Library, c: Candidate): Entity {
    var canonical := Canonicalize(lib, c.name);
    var kind := if c.kind == "unknown" then lib.infer(canonical, c) else c.kind;
    var id := if c.id != "" then c.id else lib.stableId(kind, lib.key(canonical));
    var original := lib.strip(c.name);
    var aliases := c.aliases + if original != "" && lib.fold(original) != lib.fold(canonical) then [original] else [];
    Entity(id, kind, canonical, UniqueTexts(lib, aliases), c.importance, c.trend)
  }

  method BuildEntity(lib: Library, c: Candidate) returns (e: Entity)
    ensures e == Build(lib, c)
  {
    var canonical := Canonicalize(lib, c.name);
    var kind := if c.kind == "unknown" then lib.infer(canonical, c) else c.kind;
    var id := if c.id != "" then c.id else lib.stableId(kind, lib.key(canonical));
    var original := lib.strip(c.name);
    var aliases := c.aliases;
    if original != "" && lib.fold(original) != lib.fold(canonical) {
      aliases := aliases + [original];
    } else {
      assert aliases + [] == aliases;
    }
    aliases := UniqueTextLoop(lib, aliases);
    e := Entity(id, kind, canonical, aliases, c.importance, c.trend);
  }

  predicate HasKey(lib: Library, e: Entity, k: string) {
    exists i :: 0 <= i < |AllNames(lib, e)| && lib.key(AllNames(lib, e)[i]) == k
  }

  /** The two name tests: the existing canonical name among the new names, or any name in common. */
  predicate SharesName(lib: Library, e: Entity, existing: Entity) {
    HasKey(lib, e, lib.key(existing.canonical))
    || exists i :: 0 <= i < |AllNames(lib, e)| && HasKey(lib, existing, lib.key(AllNames(lib, e)[i]))
  }

  function FirstWhere(list: seq<Entity>, test: Entity -> bool): (i: nat)
    ensures i <= |list| && (i < |list| ==> test(list[i])) && forall j :: 0 <= j < i ==> !test(list[j])
  {
    if list == [] then 0 else if test(list[0]) then 0 else 1 + FirstWhere(list[1..], test)
  }

  /** The entity with the same id, else the first that shares a name; the length when there is none. */
  function Find(lib: Library, list: seq<Entity>, e: Entity): (i: nat)
    ensures i <= |list|
  {
    var byId := FirstWhere(list, (x: Entity) => x.id == e.id);
    if byId < |list| then byId else FirstWhere(list, (x: Entity) => SharesName(lib, e, x))
  }

  function WithAliases(lib: Library, e: Entity, names: seq<string>): Entity {
    if names == [] then e else WithAlias(lib, WithAliases(lib, e, names[..|names| - 1]), names[|names| - 1])
  }

  function Max(a: int, b: int): int { if b > a then b else a }

  function Merge(lib: Library, existing: Entity, e: Entity): Entity {
    WithAliases(lib, existing, [e.canonical] + e.aliases).(
      importance := Max(existing.importance, e.importance), trend := Max(existing.trend, e.trend))
  }

  function Blank(lib: Library, c: Candidate): bool { lib.strip(c.name) == "" }

  /** What one candidate does to the entities. */
  function Absorb(lib: Library, list: seq<Entity>, c: Candidate): seq<Entity> {
    if Blank(lib, c) then list
    else
      var e := Build(lib, c);
      var i := Find(lib, list, e);
      if i == |list| then list + [e] else list[i := Merge(lib, list[i], e)]
  }

  function Resolve(lib: Library, known: seq<Entity>, candidates: seq<Candidate>): seq<Entity> {
    if candidates == [] then known
    else Absorb(lib, Resolve(lib, known, candidates[..|candidates| - 1]), candidates[|candidates| - 1])
  }

  function Blanks(lib: Library, candidates: seq<Candidate>): seq<Candidate> {
    if candidates == [] then []
    else
      var last := candidates[|candidates| - 1];
      Blanks(lib, candidates[..|candidates| - 1]) + if Blank(lib, last) then [last] else []
  }

  /** The resolving loop; what is left unresolved is exactly the blank candidates, in order. */
  method ResolveCandidates(lib: Library, known: seq<Entity>, candidates: seq<Candidate>)
    returns (entities: seq<Entity>, aliasesUsed: map<string, string>, unresolved: seq<Candidate>)
    ensures entities == Resolve(lib, known, candidates)
    ensures unresolved == Blanks(lib, candidates)
    ensures forall n :: n in aliasesUsed ==>
              exists c :: c in candidates && !Blank(lib, c) && (n == c.name || n == lib.strip(c.matchedAlias))
                          && aliasesUsed[n] == Canonicalize(lib, c.name) && lib.key(n) != lib.key(aliasesUsed[n])
  {
    entities, aliasesUsed, unresolved := known, map[], [];
    for n := 0 to |candidates|
      invariant entities == Resolve(lib, known, candidates[..n])
      invariant unresolved == Blanks(lib, candidates[..n])
      invariant forall a :: a in aliasesUsed ==>
                  exists c :: c in candidates && !Blank(lib, c) && (a == c.name || a == lib.strip(c.matchedAlias))
                              && aliasesUsed[a] == Canonicalize(lib, c.name) && lib.key(a) != lib.key(aliasesUsed[a])
    {
      var c := candidates[n];
      assert c in candidates;
      assert candidates[..n + 1][..n] == candidates[..n];
      if Blank(lib, c) {
        unresolved := unresolved + [c];
      } else {
        var e := BuildEntity(lib, c);
        if lib.key(c.name) != "" && lib.key(c.name) != lib.key(e.canonical) {
          aliasesUsed := aliasesUsed[c.name := e.canonical];
        }
        var matched := lib.strip(c.matchedAlias);
        if matched != "" && lib.key(matched) != lib.key(e.canonical) {
          aliasesUsed := aliasesUsed[matched := e.canonical];
        }
        var i := Find(lib, entities, e);
        if i == |entities| {
          entities := entities + [e];
        } else {
          entities := entities[i := Merge(lib, entities[i], e)];
        }
      }
    }
    assert candidates[..|candidates|] == candidates;
  }

  // ---------------------------------------------------------------- what resolving keeps

  ghost predicate DistinctIds(list: seq<Entity>) {
    forall i, j :: 0 <= i < j < |list| ==> list[i].id != list[j].id
  }

  /** `e'` is `e` with possibly more names and higher scores. */
  ghost predicate Grew(lib: Library, e: Entity, e': Entity) {
    && e'.id == e.id && e'.kind == e.kind && e'.canonical == e.canonical
    && e.importance <= e'.importance && e.trend <= e'.trend
    && forall f :: Named(lib, e, f) ==> Named(lib, e', f)
  }

  ghost predicate AllGrew(lib: Library, before: seq<Entity>, after: seq<Entity>) {
    |before| <= |after| && forall i :: 0 <= i < |before| ==> Grew(lib, before[i], after[i])
  }

  lemma {:induction false} WithAliasesAddNames(lib: Library, e: Entity, names: seq<string>)
    requires Laws(lib)
    ensures var r := WithAliases(lib, e, names);
            && r == e.(aliases := r.aliases)
            && forall f :: Named(lib, r, f) <==> Named(lib, e, f) || Names(lib, names, f)
  {
    if names != [] {
      var front, last := names[..|names| - 1], names[|names| - 1];
      assert names == front + [last];
      WithAliasesAddNames(lib, e, front);
      WithAliasAddsName(lib, WithAliases(lib, e, front), last);
      NamesSnoc(lib, front, last);
    }
  }

  /** Merging adds exactly the new entity's names. */
  lemma {:induction false} MergeGrows(lib: Library, existing: Entity, e: Entity)
    requires Laws(lib)
    ensures Grew(lib, existing, Merge(lib, existing, e))
    ensures forall f :: Named(lib, Merge(lib, existing, e), f) <==> Named(lib, existing, f) || Named(lib, e, f)
  {
    WithAliasesAddNames(lib, existing, [e.canonical] + e.aliases);
    var r := WithAliases(lib, existing, [e.canonical] + e.aliases);
    assert Merge(lib, existing, e).aliases == r.aliases && Merge(lib, existing, e).canonical == r.canonical;
  }

  ghost predicate SomeoneNamed(lib: Library, list: seq<Entity>, folded: string) {
    exists i :: 0 <= i < |list| && Named(lib, list[i], folded)
  }

  lemma {:induction false} AbsorbKeeps(lib: Library, list: seq<Entity>, c: Candidate)
    requires Laws(lib) && DistinctIds(list)
    ensures DistinctIds(Absorb(lib, list, c)) && AllGrew(lib, list, Absorb(lib, list, c))
    ensures !Blank(lib, c) ==>
              forall f :: Named(lib, Build(lib, c), f) ==> SomeoneNamed(lib, Absorb(lib, list, c), f)
  {
    if !Blank(lib, c) {
      var e := Build(lib, c);
      var i := Find(lib, list, e);
      var after := Absorb(lib, list, c);
      if i == |list| {
        assert after[|list|] == e;
      } else {
        MergeGrows(lib, list[i], e);
        assert after[i] == Merge(lib, list[i], e);
      }
    }
  }

  lemma {:induction false} GrewNamed(lib: Library, before: seq<Entity>, after: seq<Entity>, folded: string)
    requires AllGrew(lib, before, after) && SomeoneNamed(lib, before, folded)
    ensures SomeoneNamed(lib, after, folded)
  {
    var i :| 0 <= i < |before| && Named(lib, before[i], folded);
    assert Grew(lib, before[i], after[i]);
  }

  lemma {:induction false} ResolveKeeps(lib: Library, known: seq<Entity>, candidates: seq<Candidate>)
    requires Laws(lib) && DistinctIds(known)
    ensures DistinctIds(Resolve(lib, known, candidates)) && AllGrew(lib, known, Resolve(lib, known, candidates))
  {
    if candidates != [] {
      var front := candidates[..|candidates| - 1];
      ResolveKeeps(lib, known, front);
      AbsorbKeeps(lib, Resolve(lib, known, front), candidates[|candidates| - 1]);
    }
  }

  lemma {:induction false} CanonicalNamed(lib: Library, c: Candidate)
    requires Laws(lib) && !Blank(lib, c)
    ensures lib.strip(Canonicalize(lib, c.name)) != ""
    ensures Named(lib, Build(lib, c), lib.fold(lib.strip(Canonicalize(lib, c.name))))
  {
    var e := Build(lib, c);
    assert ([e.canonical] + e.aliases)[0] == Canonicalize(lib, c.name);
  }

  lemma {:induction false} AbsorbNames(lib: Library, list: seq<Entity>, c: Candidate)
    requires Laws(lib) && DistinctIds(list) && !Blank(lib, c)
    ensures SomeoneNamed(lib, Absorb(lib, list, c), lib.fold(lib.strip(Canonicalize(lib, c.name))))
  {
    AbsorbKeeps(lib, list, c);
    CanonicalNamed(lib, c);
  }

  lemma {:induction false} AbsorbKeepsNamed(lib: Library, list: seq<Entity>, c: Candidate, folded: string)
    requires Laws(lib) && DistinctIds(list) && SomeoneNamed(lib, list, folded)
    ensures SomeoneNamed(lib, Absorb(lib, list, c), folded)
  {
    AbsorbKeeps(lib, list, c);
    GrewNamed(lib, list, Absorb(lib, list, c), folded);
  }

  lemma {:induction false} CandidateIsNamed(lib: Library, known: seq<Entity>, candidates: seq<Candidate>, c: Candidate)
    requires Laws(lib) && DistinctIds(known) && c in candidates && !Blank(lib, c)
    ensures SomeoneNamed(lib, Resolve(lib, known, candidates), lib.fold(lib.strip(Canonicalize(lib, c.name))))
  {
    var front, last := candidates[..|candidates| - 1], candidates[|candidates| - 1];
    var before := Resolve(lib, known, front);
    ResolveKeeps(lib, known, front);
    if c in front {
      CandidateIsNamed(lib, known, front, c);
      AbsorbKeepsNamed(lib, before, last, lib.fold(lib.strip(Canonicalize(lib, c.name))));
    } else {
      assert candidates == front + [last];
      AbsorbNames(lib, before, c);
    }
  }

  /** No known entity is lost, renamed or moved to another id, ids stay distinct, and names and scores
      only grow; and every candidate that is not blank is named, by its canonical name, in the result. */
  lemma {:induction false} EveryCandidateIsNamed(lib: Library, known: seq<Entity>, candidates: seq<Candidate>, c: Candidate)
    requires Laws(lib) && DistinctIds(known)
    ensures DistinctIds(Resolve(lib, known, candidates)) && AllGrew(lib, known, Resolve(lib, known, candidates))
    ensures c in candidates && !Blank(lib, c) ==>
              SomeoneNamed(lib, Resolve(lib, known, candidates), lib.fold(lib.strip(Canonicalize(lib, c.name))))
  {
    ResolveKeeps(lib, known, candidates);
    if c in candidates && !Blank(lib, c) {
      CandidateIsNamed(lib, known, candidates, c);
    }
  }

  // ---------------------------------------------------------------- resolving twice

  lemma {:induction false} NamedHasKey(lib: Library, e: Entity, name: string)
    requires Laws(lib) && lib.strip(name) != "" && Named(lib, e, lib.fold(lib.strip(name)))
    ensures HasKey(lib, e, lib.key(name))
  {
    var all := AllNames(lib, e);
    UniqueTextsKeepNames(lib, [e.canonical] + e.aliases);
    var i :| 0 <= i < |all| && lib.fold(all[i]) == lib.fold(lib.strip(name));
    assert lib.fold(lib.strip(all[i])) == lib.fold(lib.strip(name));
  }

  lemma {:induction false} SharedIsFound(lib: Library, list: seq<Entity>, e: Entity, k: nat)
    requires k < |list| && SharesName(lib, e, list[k])
    ensures Find(lib, list, e) < |list|
  {
  }

  lemma {:induction false} CommonNameIsShared(lib: Library, e: Entity, existing: Entity, name: string)
    requires HasKey(lib, e, lib.key(name)) && HasKey(lib, existing, lib.key(name))
    ensures SharesName(lib, e, existing)
  {
    var i :| 0 <= i < |AllNames(lib, e)| && lib.key(AllNames(lib, e)[i]) == lib.key(name);
  }

  /** A candidate whose canonical name somebody bears is found, so it adds no entity. */
  lemma {:induction false} NamedIsFound(lib: Library, list: seq<Entity>, c: Candidate)
    requires Laws(lib) && !Blank(lib, c)
    requires SomeoneNamed(lib, list, lib.fold(lib.strip(Canonicalize(lib, c.name))))
    ensures |Absorb(lib, list, c)| == |list|
  {
    var e := Build(lib, c);
    var name := Canonicalize(lib, c.name);
    var k :| 0 <= k < |list| && Named(lib, list[k], lib.fold(lib.strip(name)));
    CanonicalNamed(lib, c);
    NamedHasKey(lib, list[k], name);
    NamedHasKey(lib, e, name);
    CommonNameIsShared(lib, e, list[k], name);
    SharedIsFound(lib, list, e, k);
  }

  /** Resolving the same candidates against the result adds no entity: the ids are the ones there were. */
  lemma {:induction false} ResolvingAgainAddsNone(lib: Library, known: seq<Entity>, candidates: seq<Candidate>, again: seq<Candidate>)
    requires Laws(lib) && DistinctIds(known)
    requires forall c :: c in again ==> c in candidates
    ensures
      var first := Resolve(lib, known, candidates);
      var second := Resolve(lib, first, again);
      |second| == |first| && forall i :: 0 <= i < |first| ==> second[i].id == first[i].id
  {
    var first := Resolve(lib, known, candidates);
    ResolveKeeps(lib, known, candidates);
    ResolveKeeps(lib, first, again);
    if again != [] {
      var front, last := again[..|again| - 1], again[|again| - 1];
      ResolvingAgainAddsNone(lib, known, candidates, front);
      ResolveKeeps(lib, first, front);
      assert last in again;
      if !Blank(lib, last) {
        EveryCandidateIsNamed(lib, known, candidates, last);
        var folded := lib.fold(lib.strip(Canonicalize(lib, last.name)));
        GrewNamed(lib, first, Resolve(lib, first, front), folded);
        NamedIsFound(lib, Resolve(lib, first, front), last);
      }
    }
    forall i | 0 <= i < |first|
      ensures Resolve(lib, first, again)[i].id == first[i].id
    {
      assert Grew(lib, first[i], Resolve(lib, first, again)[i]);
    }
  }
}
