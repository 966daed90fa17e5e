/**
 What collection operations do to the shown collections in any state whatever, hidden entries and taken ids
 included.  Every operation that goes through puts one entry in place of the shown one with its id.  From that
 alone: exactly when shown slugs stay distinct, exactly when a shown collection stays shown, and that stored
 counts are always right.
 */
module CollectionSlugs {
  import opened Collections
  import opened StableIds
  import opened Texts
  import opened Wrappers

  // ---------------------------------------------------------------- one operation, one entry

  /** The collection an added item goes to, if there is one of that name. */
  function Edited(data: Dataset, user: seq<Collection>, key: string): Option<Collection> {
    var editable := Editable(data, user, key);
    var i := FirstNamed(editable, key);
    if i == |editable| then None else Some(editable[i])
  }

  /** The entry the operation stores, if it goes through and stores one. */
  function Put(lib: Library, data: Dataset, user: seq<Collection>, op: Op): Option<Collection> {
    match op
    case CreateOp(request) =>
      (match Create(lib, data, user, request)
       case Err(_) => None
       case Ok(c) => Some(c))
    case GenerateOp(request) =>
      (match Generate(lib, data, user, request)
       case Err(_) => None
       case Ok(c) => Some(c))
    case AddOp(key, request) =>
      (match Edited(data, user, key)
       case None => None
       case Some(c) =>
         match NewItem(lib, data, c, request)
         case Err(_) => None
         case Ok(item) => Some(WithItem(lib, c, item)))
  }

  lemma {:induction false} VisibleHasDistinctIds(data: Dataset, user: seq<Collection>)
    ensures DistinctIds(Visible(data, user))
  {
    MergedIntoMembers([], data.collections);
    MergedIntoMembers(Shipped(data), user);
  }

  /** `after` shows what `before` shows, with `p` in place of the entry of its id. */
  ghost predicate Puts(before: seq<Collection>, after: seq<Collection>, p: Collection) {
    forall x :: x in after <==> x == p || (x in before && x.id != p.id)
  }

  lemma {:induction false} AppendPuts(data: Dataset, user: seq<Collection>, c: Collection)
    ensures Puts(Visible(data, user), Visible(data, user + [c]), c)
  {
    VisibleHasDistinctIds(data, user);
    VisibleAppend(data, user, c);
    UpsertMembers(Visible(data, user), c);
  }

  function ReplacedAll(list: seq<Collection>, p: Collection): (r: seq<Collection>)
    ensures |r| == |list| && forall i :: 0 <= i < |list| ==> r[i] == if list[i].id == p.id then p else list[i]
  {
    seq(|list|, i requires 0 <= i < |list| => if list[i].id == p.id then p else list[i])
  }

  /** Replacing all entries of one id by one value puts that value in the merge. */
  lemma {:induction false} ReplacedAllPuts(base: seq<Collection>, list: seq<Collection>, p: Collection)
    requires DistinctIds(base)
    ensures if exists c :: c in list && c.id == p.id
            then Puts(MergedInto(base, list), MergedInto(base, ReplacedAll(list, p)), p)
            else ReplacedAll(list, p) == list
  {
    if list != [] {
      var front, last := list[..|list| - 1], list[|list| - 1];
      assert list == front + [last];
      ReplacedAllPuts(base, front, p);
      var after := ReplacedAll(list, p);
      assert after[..|after| - 1] == ReplacedAll(front, p);
      MergedIntoMembers(base, front);
      MergedIntoMembers(base, ReplacedAll(front, p));
      UpsertMembers(MergedInto(base, front), last);
      UpsertMembers(MergedInto(base, ReplacedAll(front, p)), after[|after| - 1]);
    }
  }

  lemma {:induction false} ReplacedPuts(data: Dataset, list: seq<Collection>, p: Collection)
    requires exists c :: c in list && c.id == p.id
    ensures Puts(Visible(data, list), Visible(data, Replaced(list, p)), p)
  {
    MergedIntoMembers([], data.collections);
    ReplacedAllPuts(Shipped(data), list, p);
    assert Replaced(list, p) == ReplacedAll(list, p);
  }

  lemma {:induction false} PutsTwice(before: seq<Collection>, between: seq<Collection>, after: seq<Collection>, a: Collection, p: Collection)
    requires Puts(before, between, a) && Puts(between, after, p) && a.id == p.id
    ensures Puts(before, after, p)
  {
  }

  lemma {:induction false} AddPuts(lib: Library, data: Dataset, user: seq<Collection>, op: Op)
    requires op.AddOp? && Put(lib, data, user, op).Some?
    ensures Exec(lib, data, user, op).Ok?
    ensures Puts(Visible(data, user), Visible(data, Exec(lib, data, user, op).value), Put(lib, data, user, op).value)
  {
    var editable := Editable(data, user, op.key);
    var c, p := Edited(data, user, op.key).value, Put(lib, data, user, op).value;
    assert c in editable;
    ReplacedPuts(data, editable, p);
    if editable != user {
      AppendPuts(data, user, editable[|user|]);
      assert editable == user + [editable[|user|]];
      assert c == editable[|user|];
      PutsTwice(Visible(data, user), Visible(data, editable), Visible(data, Replaced(editable, p)), c, p);
    }
  }

  /** An operation that goes through stores nothing new, or puts one entry among the shown ones. */
  lemma {:induction false} ExecPuts(lib: Library, data: Dataset, user: seq<Collection>, op: Op)
    requires Exec(lib, data, user, op).Ok?
    ensures
      var after := Exec(lib, data, user, op).value;
      match Put(lib, data, user, op)
      case None => after == user
      case Some(p) => Puts(Visible(data, user), Visible(data, after), p)
  {
    if Put(lib, data, user, op).Some? {
      if op.AddOp? {
        AddPuts(lib, data, user, op);
      } else {
        AppendPuts(data, user, Put(lib, data, user, op).value);
      }
    }
  }

  // ---------------------------------------------------------------- counts

  lemma {:induction false} AddKeepsCounts(lib: Library, data: Dataset, user: seq<Collection>, op: Op)
    requires op.AddOp? && CountsRight(user) && Exec(lib, data, user, op).Ok?
    ensures CountsRight(Exec(lib, data, user, op).value)
  {
    var editable := Editable(data, user, op.key);
    var i := FirstNamed(editable, op.key);
    if i < |editable| {
      var c := editable[i];
      var c' := WithItem(lib, c, NewItem(lib, data, c, op.add).value);
      WithItemAddsOne(lib, c, NewItem(lib, data, c, op.add).value);
      assert c in editable;
      forall j: nat | j < |editable| && editable[j].id != c.id
        ensures editable[j].itemCount == TotalItems(editable[j].sections)
      {
        OtherCounts(data, user, op.key, j);
      }
      ReplacedCounts(editable, c');
    }
  }

  lemma {:induction false} ReplacedCounts(list: seq<Collection>, p: Collection)
    requires p.itemCount == TotalItems(p.sections) && exists c :: c in list && c.id == p.id
    requires forall j: nat :: j < |list| && list[j].id != p.id ==> list[j].itemCount == TotalItems(list[j].sections)
    ensures CountsRight(Replaced(list, p))
  {
  }

  lemma {:induction false} ExecKeepsCounts(lib: Library, data: Dataset, user: seq<Collection>, op: Op)
    requires CountsRight(user) && Exec(lib, data, user, op).Ok?
    ensures CountsRight(Exec(lib, data, user, op).value)
  {
    match op
    case AddOp(_, _) => AddKeepsCounts(lib, data, user, op);
    case CreateOp(request) => AppendCounts(user, Create(lib, data, user, request).value);
    case GenerateOp(request) => AppendCounts(user, Generate(lib, data, user, request).value);
  }

  /** In every reachable state every stored count is the number of items. */
  lemma {:induction false} ReachableCountsRight(lib: Library, data: Dataset, ops: seq<Op>)
    ensures CountsRight(Run(lib, data, ops))
  {
    if ops != [] {
      var before := Run(lib, data, ops[..|ops| - 1]);
      ReachableCountsRight(lib, data, ops[..|ops| - 1]);
      if Exec(lib, data, before, ops[|ops| - 1]).Ok? {
        ExecKeepsCounts(lib, data, before, ops[|ops| - 1]);
      }
    }
  }

  // ---------------------------------------------------------------- distinct slugs

  /** The operation adds an item to an entry whose slug is shown under another id. */
  predicate RepeatsSlug(lib: Library, data: Dataset, user: seq<Collection>, op: Op) {
    op.AddOp? && Put(lib, data, user, op).Some? &&
    var c := Edited(data, user, op.key).value;
    exists x :: x in Visible(data, user) && x.slug == c.slug && x.id != c.id
  }

  lemma {:induction false} PutKeepsSlugsIff(before: seq<Collection>, after: seq<Collection>, p: Collection)
    requires SlugsIdentify(before) && Puts(before, after, p)
    ensures SlugsIdentify(after) <==> forall x :: x in before && x.id != p.id ==> x.slug != p.slug
  {
    assert p in after;
    if SlugsIdentify(after) {
      forall x | x in before && x.id != p.id ensures x.slug != p.slug {
        assert x in after;
      }
    }
  }

  /** A new collection's slug is never a shown one, whatever its id. */
  lemma {:induction false} NewSlugIsFresh(lib: Library, data: Dataset, user: seq<Collection>, op: Op)
    requires !op.AddOp? && Put(lib, data, user, op).Some?
    ensures forall x :: x in Visible(data, user) ==> x.slug != Put(lib, data, user, op).value.slug
  {
    var p := Put(lib, data, user, op).value;
    forall x | x in Visible(data, user) ensures x.slug != p.slug {
      ShownSlug(data, Visible(data, user), p.slug, x);
    }
  }

  /** An operation that goes through keeps shown slugs distinct exactly when it is no such addition. */
  lemma {:induction false} ExecKeepsSlugsIff(lib: Library, data: Dataset, user: seq<Collection>, op: Op)
    requires DistinctSlugs(Visible(data, user)) && Exec(lib, data, user, op).Ok?
    ensures DistinctSlugs(Visible(data, Exec(lib, data, user, op).value)) <==> !RepeatsSlug(lib, data, user, op)
  {
    var before, after := Visible(data, user), Visible(data, Exec(lib, data, user, op).value);
    VisibleHasDistinctIds(data, user);
    VisibleHasDistinctIds(data, Exec(lib, data, user, op).value);
    DistinctWhenIdentified(before);
    DistinctWhenIdentified(after);
    ExecPuts(lib, data, user, op);
    if Put(lib, data, user, op).Some? {
      var p := Put(lib, data, user, op).value;
      PutKeepsSlugsIff(before, after, p);
      if op.AddOp? {
        assert p.id == Edited(data, user, op.key).value.id && p.slug == Edited(data, user, op.key).value.slug;
      } else {
        NewSlugIsFresh(lib, data, user, op);
      }
    }
  }

  ghost predicate SlugsDistinctThroughout(lib: Library, data: Dataset, ops: seq<Op>) {
    && DistinctSlugs(Visible(data, Run(lib, data, ops)))
    && (ops == [] || SlugsDistinctThroughout(lib, data, ops[..|ops| - 1]))
  }

  /** No operation of the run adds to an entry whose slug is shown under another id. */
  predicate NoneRepeats(lib: Library, data: Dataset, ops: seq<Op>) {
    ops == [] ||
    (NoneRepeats(lib, data, ops[..|ops| - 1]) && !RepeatsSlug(lib, data, Run(lib, data, ops[..|ops| - 1]), ops[|ops| - 1]))
  }

  lemma {:induction false} RefusedRepeatsNone(lib: Library, data: Dataset, user: seq<Collection>, op: Op)
    requires Exec(lib, data, user, op).Err?
    ensures !RepeatsSlug(lib, data, user, op)
  {
  }

  /** Shown slugs are pairwise distinct at every point of a run exactly when the shipped ones are and no
      operation of the run is such an addition: whatever ids are taken, and whatever the hash does. */
  lemma {:induction false} ReachableSlugsDistinctIff(lib: Library, data: Dataset, ops: seq<Op>)
    ensures SlugsDistinctThroughout(lib, data, ops) <==> DistinctSlugs(Shipped(data)) && NoneRepeats(lib, data, ops)
  {
    if ops == [] {
      assert Visible(data, Run(lib, data, ops)) == Shipped(data);
    } else {
      var front, op := ops[..|ops| - 1], ops[|ops| - 1];
      var before := Run(lib, data, front);
      ReachableSlugsDistinctIff(lib, data, front);
      if Exec(lib, data, before, op).Err? {
        RefusedRepeatsNone(lib, data, before, op);
      } else if DistinctSlugs(Visible(data, before)) {
        ExecKeepsSlugsIff(lib, data, before, op);
      }
    }
  }

  lemma {:induction false} SoundIsDistinct(lib: Library, data: Dataset, ops: seq<Op>)
    requires SoundThroughout(lib, data, ops)
    ensures SlugsDistinctThroughout(lib, data, ops)
  {
    VisibleHasDistinctIds(data, Run(lib, data, ops));
    DistinctWhenIdentified(Visible(data, Run(lib, data, ops)));
    if ops != [] {
      SoundIsDistinct(lib, data, ops[..|ops| - 1]);
    }
  }

  /** As long as no id is taken there is no such addition. */
  lemma {:induction false} NoneTakenNoneRepeats(lib: Library, data: Dataset, ops: seq<Op>)
    requires GoodLibrary(lib) && DistinctSlugs(Shipped(data)) && NoneTaken(lib, data, ops)
    ensures NoneRepeats(lib, data, ops)
  {
    RunSoundIff(lib, data, ops);
    SoundIsDistinct(lib, data, ops);
    ReachableSlugsDistinctIff(lib, data, ops);
  }

  // ---------------------------------------------------------------- one collection over a run

  /** The operation puts another slug under this id. */
  predicate Hides(lib: Library, data: Dataset, user: seq<Collection>, op: Op, id: string, slug: string) {
    match Put(lib, data, user, op)
    case None => false
    case Some(p) => p.id == id && p.slug != slug
  }

  lemma {:induction false} PutShowsIff(data: Dataset, user: seq<Collection>, after: seq<Collection>, p: Collection, id: string, slug: string)
    requires Puts(Visible(data, user), Visible(data, after), p) && Shows(data, user, id, slug)
    ensures Shows(data, after, id, slug) <==> !(p.id == id && p.slug != slug)
  {
    var c :| c in Visible(data, user) && c.id == id && c.slug == slug;
    assert p in Visible(data, after);
    if p.id != id { assert c in Visible(data, after); }
  }

  /** Shown at every point of the run after its first `start` operations. */
  ghost predicate ShownFrom(lib: Library, data: Dataset, ops: seq<Op>, start: nat, id: string, slug: string) {
    Shows(data, Run(lib, data, ops), id, slug) &&
    (|ops| <= start || ShownFrom(lib, data, ops[..|ops| - 1], start, id, slug))
  }

  predicate NoneHides(lib: Library, data: Dataset, ops: seq<Op>, start: nat, id: string, slug: string) {
    |ops| <= start ||
    (NoneHides(lib, data, ops[..|ops| - 1], start, id, slug) &&
     !Hides(lib, data, Run(lib, data, ops[..|ops| - 1]), ops[|ops| - 1], id, slug))
  }

  /** A collection once shown stays shown, under its id and its slug, exactly as long as no operation puts
      another slug under its id, whatever happens to the others. */
  lemma {:induction false} StaysShownIff(lib: Library, data: Dataset, ops: seq<Op>, start: nat, id: string, slug: string)
    requires start <= |ops| && Shows(data, Run(lib, data, ops[..start]), id, slug)
    ensures ShownFrom(lib, data, ops, start, id, slug) <==> NoneHides(lib, data, ops, start, id, slug)
  {
    if start == |ops| {
      assert ops[..start] == ops;
    } else {
      var front, op := ops[..|ops| - 1], ops[|ops| - 1];
      assert front[..start] == ops[..start];
      StaysShownIff(lib, data, front, start, id, slug);
      var before := Run(lib, data, front);
      if Exec(lib, data, before, op).Ok? && Shows(data, before, id, slug) {
        ExecPuts(lib, data, before, op);
        if Put(lib, data, before, op).Some? {
          PutShowsIff(data, before, Exec(lib, data, before, op).value, Put(lib, data, before, op).value, id, slug);
        }
      }
    }
  }

  // ---------------------------------------------------------------- a slug shown twice

  const CreateByCarol := CreateOp(CreateRequest("Generated", "d", "carol"))
  const AddToGenerated := AddOp("generated", ItemRequest(ProjectItem, "p", "", "P", 0))

  lemma {:induction false} CarolsId(lib: Library)
    requires GoodLibrary(lib)
    ensures CreatedId(lib, "generated", "carol") != CreatedId(lib, "generated", "foo|bob")
  {
    var h := lib.hasher;
    assert PlainText(h, "generated") by { WordIsPlain(h, "generated"); }
    NormalizeWord(h, "carol");
    BarNormalized(h);
    assert "carol"[0] != ("foo" + "|" + "bob")[0];
    MintedIdsCollideIff(lib, "generated", "carol", "generated", "foo|bob");
  }

  lemma {:induction false} ThirdCreated(lib: Library, first: Collection, second: Collection) returns (c: Collection)
    requires lib.slugify("Generated") == "generated"
    requires Visible(OneProject, [first, second]) == [second] && second.slug == "foo"
    ensures Exec(lib, OneProject, [first, second], CreateByCarol) == Ok([first, second] + [c])
    ensures c.slug == "generated" && c.id == CreatedId(lib, "generated", "carol")
  {
    StripIff("Generated");
    StripIff("d");
    assert "generated" !in Slugs([second]);
    c := Create(lib, OneProject, [first, second], CreateByCarol.create).value;
  }

  /** "Generated" created by "foo|bob", "foo" generated by "bob" under the same id, "Generated" created again
      by "carol", and an item added to "generated": the item goes to the hidden first collection, which comes
      back, and two shown collections have the slug "generated". */
  lemma {:induction false} SlugShownTwice(lib: Library)
    requires GoodLibrary(lib) && lib.slugify("Generated") == "generated" && lib.slugify("foo") == "foo"
    ensures RepeatsSlug(lib, OneProject, Run(lib, OneProject, [CreateByBar, GenerateFoo, CreateByCarol]), AddToGenerated)
    ensures !DistinctSlugs(Visible(OneProject, Run(lib, OneProject, [CreateByBar, GenerateFoo, CreateByCarol, AddToGenerated])))
  {
    var user := ThreeCollections(lib);
    FirstIsEdited(lib, user);
    ExecKeepsSlugsIff(lib, OneProject, user, AddToGenerated);
    RunSnoc(lib, OneProject, [CreateByBar, GenerateFoo, CreateByCarol], AddToGenerated);
    assert [CreateByBar, GenerateFoo, CreateByCarol] + [AddToGenerated] == [CreateByBar, GenerateFoo, CreateByCarol, AddToGenerated];
  }

  lemma {:induction false} RunSnoc(lib: Library, data: Dataset, ops: seq<Op>, op: Op)
    requires Exec(lib, data, Run(lib, data, ops), op).Ok?
    ensures Run(lib, data, ops + [op]) == Exec(lib, data, Run(lib, data, ops), op).value
  {
    assert (ops + [op])[..|ops|] == ops;
  }

  /** Of two collections of one id the second is shown. */
  lemma {:induction false} SecondHidesFirst(first: Collection, second: Collection)
    requires first.id == second.id && Visible(OneProject, [first]) == [first]
    ensures Visible(OneProject, [first, second]) == [second]
  {
    VisibleAppend(OneProject, [first], second);
    assert [first] + [second] == [first, second] && Upsert([first], second) == [second];
  }

  lemma {:induction false} ThirdIsShown(first: Collection, second: Collection, third: Collection)
    requires Visible(OneProject, [first, second]) == [second] && second.id != third.id
    ensures Visible(OneProject, [first, second, third]) == [second, third]
  {
    VisibleAppend(OneProject, [first, second], third);
    assert [first, second] + [third] == [first, second, third];
    assert Upsert([second], third) == [second] + [third] == [second, third];
  }

  lemma {:induction false} RunOfThree(lib: Library, first: Collection, second: Collection, third: Collection)
    requires Run(lib, OneProject, [CreateByBar]) == [first]
    requires Exec(lib, OneProject, [first], GenerateFoo) == Ok([first] + [second])
    requires Exec(lib, OneProject, [first, second], CreateByCarol) == Ok([first, second] + [third])
    ensures Run(lib, OneProject, [CreateByBar, GenerateFoo, CreateByCarol]) == [first, second, third]
  {
    assert [CreateByBar, GenerateFoo][..1] == [CreateByBar];
    assert Run(lib, OneProject, [CreateByBar, GenerateFoo]) == [first] + [second] == [first, second];
    assert [CreateByBar, GenerateFoo, CreateByCarol][..2] == [CreateByBar, GenerateFoo];
    assert [first, second] + [third] == [first, second, third];
  }

  lemma {:induction false} ThreeCollections(lib: Library) returns (user: seq<Collection>)
    requires GoodLibrary(lib) && lib.slugify("Generated") == "generated" && lib.slugify("foo") == "foo"
    ensures Run(lib, OneProject, [CreateByBar, GenerateFoo, CreateByCarol]) == user
    ensures |user| == 3 && user[0].slug == user[2].slug == "generated" && user[0].id != user[2].id
    ensures Visible(OneProject, user) == [user[1], user[2]] && DistinctSlugs(Visible(OneProject, user))
  {
    var first := FirstCreated(lib);
    var second := ThenGenerated(lib, first);
    BarIds(lib);
    CarolsId(lib);
    SecondHidesFirst(first, second);
    var third := ThirdCreated(lib, first, second);
    ThirdIsShown(first, second, third);
    RunOfThree(lib, first, second, third);
    user := [first, second, third];
  }

  lemma {:induction false} FirstIsEdited(lib: Library, user: seq<Collection>)
    requires |user| == 3 && user[0].slug == user[2].slug == "generated" && user[0].id != user[2].id
    requires Visible(OneProject, user) == [user[1], user[2]]
    ensures RepeatsSlug(lib, OneProject, user, AddToGenerated)
    ensures Exec(lib, OneProject, user, AddToGenerated).Ok?
  {
    assert Named(user[0], "generated") && FirstNamed(user, "generated") == 0;
    assert OneProject.projects[0] in OneProject.projects;
    assert NewItem(lib, OneProject, user[0], AddToGenerated.add).Ok?;
    assert user[2] in Visible(OneProject, user);
  }
}
