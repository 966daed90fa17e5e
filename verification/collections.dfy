/**
 Project collections: the shipped dataset's collections merged with the ones users made.  A collection
 is addressed by its slug, so every operation must keep the merged slugs pairwise distinct.  It does so
 only indirectly: a new slug is searched for among the merged slugs, a new id is hashed from that slug and
 its author, and the merge overrides by id, so nothing is hidden exactly as long as no new id is taken.
 */
module Collections {
  import opened StableIds
  import opened Texts
  import opened Wrappers

  datatype Item = Item(id: string, collectionId: string, kind: ItemKind, target: string, order: int, title: string)

  datatype ItemKind = ProjectItem | ToolItem | CaseItem | PatternItem | LinkItem

  datatype Section = Section(id: string, title: string, order: int, items: seq<Item>)

  datatype Collection = Collection(
    id: string,
    slug: string,
    title: string,
    description: string,
    sections: seq<Section>,
    itemCount: nat,
    createdBy: string)

  /** A shipped project or case: its id, its display name and the texts a topic is matched against. */
  datatype Entry = Entry(id: string, name: string, texts: seq<string>)

  datatype Dataset = Dataset(collections: seq<Collection>, projects: seq<Entry>, cases: seq<Entry>)

  /** The library calls the operations make: hashing, slugs, title case and topic matching. */
  datatype Library = Library(
    hasher: Hasher,
    slugify: string -> string,
    titleCase: string -> string,
    matches: (string, Entry) -> bool)

  datatype CreateRequest = CreateRequest(title: string, description: string, createdBy: string)
  datatype GenerateRequest = GenerateRequest(topic: string, projectIds: seq<string>, caseIds: seq<string>, createdBy: string)
  /** Absent optional texts are empty, as the source tests them for truth only; order 0 counts as absent. */
  datatype ItemRequest = ItemRequest(kind: ItemKind, itemId: string, url: string, title: string, order: int)

  datatype Failure = TitleRequired | DescriptionRequired | TopicRequired | NothingMatches | UrlRequired
                   | ProjectNotFound | CaseNotFound

  // ---------------------------------------------------------------- decimal suffixes

  const DIGITS := "0123456789"

  function Decimal(n: nat): (s: string)
    ensures |s| >= 1
  {
    if n < 10 then [DIGITS[n]] else Decimal(n / 10) + [DIGITS[n % 10]]
  }

  lemma {:induction false} DecimalParts(n: nat)
    ensures Decimal(n)[|Decimal(n)| - 1] == DIGITS[n % 10]
    ensures Decimal(n)[..|Decimal(n)| - 1] == if n < 10 then "" else Decimal(n / 10)
  {
  }

  lemma {:induction false} DigitsDiffer(a: nat, b: nat)
    requires a < 10 && b < 10 && DIGITS[a] == DIGITS[b]
    ensures a == b
  {
  }

  lemma {:induction false} DecimalIsInjective(m: nat, n: nat)
    requires Decimal(m) == Decimal(n)
    ensures m == n
  {
    DecimalParts(m);
    DecimalParts(n);
    DigitsDiffer(m % 10, n % 10);
    if m >= 10 && n >= 10 {
      DecimalIsInjective(m / 10, n / 10);
    }
  }

  function Numbered(candidate: string, k: nat): string {
    candidate + "-" + Decimal(k)
  }

  lemma {:induction false} NumberedIsInjective(candidate: string, j: nat, k: nat)
    requires Numbered(candidate, j) == Numbered(candidate, k)
    ensures j == k
  {
    var n := |candidate + "-"|;
    assert Numbered(candidate, j)[n..] == Decimal(j);
    assert Numbered(candidate, k)[n..] == Decimal(k);
    DecimalIsInjective(j, k);
  }

  // ---------------------------------------------------------------- a free slug

  const DEFAULT_SLUG := "projects-collection"

  /** The first number from `k` on whose slug is free.  Each taken slug rules out one number only, so
      there is one (`taken` shrinks). */
  function FirstFree(candidate: string, taken: set<string>, k: nat): (free: nat)
    ensures k <= free && Numbered(candidate, free) !in taken
    ensures forall j: nat :: k <= j < free ==> Numbered(candidate, j) in taken
    decreases taken
  {
    var name := Numbered(candidate, k);
    if name !in taken then k
    else
      var free := FirstFree(candidate, taken - {name}, k + 1);
      assert Numbered(candidate, free) != name by {
        if Numbered(candidate, free) == name { NumberedIsInjective(candidate, free, k); }
      }
      free
  }

  function FreeSlug(base: string, taken: set<string>): (slug: string)
    ensures slug !in taken
  {
    var candidate := if base == "" then DEFAULT_SLUG else base;
    if candidate !in taken then candidate else Numbered(candidate, FirstFree(candidate, taken, 2))
  }

  function Slugs(list: seq<Collection>): set<string> {
    set c | c in list :: c.slug
  }

  /** The search loop ends, with the base when it is free and the smallest free suffix from 2 otherwise. */
  method UniqueSlug(base: string, existing: seq<Collection>) returns (slug: string)
    ensures slug !in Slugs(existing)
    ensures slug == FreeSlug(base, Slugs(existing))
    ensures
      var candidate := if base == "" then DEFAULT_SLUG else base;
      if candidate !in Slugs(existing) then slug == candidate
      else exists k: nat :: k >= 2 && slug == Numbered(candidate, k)
                            && forall j: nat :: 2 <= j < k ==> Numbered(candidate, j) in Slugs(existing)
  {
    var candidate := if base == "" then DEFAULT_SLUG else base;
    var taken := set c | c in existing :: c.slug;
    if candidate !in taken {
      return candidate;
    }
    var index := 2;
    ghost var free := FirstFree(candidate, taken, 2);
    while Numbered(candidate, index) in taken
      invariant 2 <= index <= free
      decreases free - index
    {
      index := index + 1;
    }
    slug := Numbered(candidate, index);
  }

  // ---------------------------------------------------------------- merging by id

  predicate DistinctIds(list: seq<Collection>) {
    forall i, j :: 0 <= i < j < |list| ==> list[i].id != list[j].id
  }

  predicate DistinctSlugs(list: seq<Collection>) {
    forall i, j :: 0 <= i < j < |list| ==> list[i].slug != list[j].slug
  }

  /** Assignment into an insertion-ordered dictionary keyed by id. */
  function Upsert(list: seq<Collection>, c: Collection): seq<Collection> {
    if list == [] then [c]
    else if list[0].id == c.id then [c] + list[1..]
    else [list[0]] + Upsert(list[1..], c)
  }

  function MergedInto(base: seq<Collection>, added: seq<Collection>): seq<Collection> {
    if added == [] then base else Upsert(MergedInto(base, added[..|added| - 1]), added[|added| - 1])
  }

  function Merged(shipped: seq<Collection>, user: seq<Collection>): seq<Collection> {
    MergedInto(MergedInto([], shipped), user)
  }

  method MergedCollections(shipped: seq<Collection>, user: seq<Collection>) returns (list: seq<Collection>)
    ensures list == Merged(shipped, user)
    ensures DistinctIds(list)
    ensures forall x :: x in list ==> x in shipped || x in user
  {
    list := [];
    for i := 0 to |shipped|
      invariant list == MergedInto([], shipped[..i])
    {
      assert shipped[..i + 1][..i] == shipped[..i];
      list := Upsert(list, shipped[i]);
    }
    assert shipped[..|shipped|] == shipped;
    for i := 0 to |user|
      invariant list == MergedInto(MergedInto([], shipped), user[..i])
    {
      assert user[..i + 1][..i] == user[..i];
      list := Upsert(list, user[i]);
    }
    assert user[..|user|] == user;
    MergedIntoMembers([], shipped);
    MergedIntoMembers(MergedInto([], shipped), user);
  }

  lemma {:induction false} UpsertAppends(list: seq<Collection>, c: Collection)
    requires forall x :: x in list ==> x.id != c.id
    ensures Upsert(list, c) == list + [c]
  {
    if list != [] {
      assert list == [list[0]] + list[1..];
      UpsertAppends(list[1..], c);
    }
  }

  lemma {:induction false} DistinctTail(list: seq<Collection>)
    requires list != []
    ensures DistinctIds(list) <==> DistinctIds(list[1..]) && forall x :: x in list[1..] ==> x.id != list[0].id
  {
    var tail := list[1..];
    assert forall i :: 0 <= i < |tail| ==> tail[i] == list[i + 1];
    assert forall i :: 0 < i < |list| ==> list[i] in tail;
  }

  lemma {:induction false} UpsertMembers(list: seq<Collection>, c: Collection)
    requires DistinctIds(list)
    ensures DistinctIds(Upsert(list, c))
    ensures forall x :: x in Upsert(list, c) <==> x == c || (x in list && x.id != c.id)
  {
    if list != [] {
      assert list == [list[0]] + list[1..];
      DistinctTail(list);
      DistinctTail(Upsert(list, c));
      if list[0].id != c.id {
        UpsertMembers(list[1..], c);
        assert Upsert(list, c)[1..] == Upsert(list[1..], c);
      } else {
        assert Upsert(list, c)[1..] == list[1..];
      }
    }
  }

  /** An id added to the dictionary ends with the last value added for it; no other id is touched. */
  lemma {:induction false} MergedIntoMembers(base: seq<Collection>, added: seq<Collection>)
    requires DistinctIds(base)
    ensures DistinctIds(MergedInto(base, added))
    ensures forall x :: x in MergedInto(base, added) ==> x in base || x in added
    ensures forall x :: x in base && (forall a :: a in added ==> a.id != x.id) ==> x in MergedInto(base, added)
    ensures DistinctIds(added) ==>
              forall x :: x in MergedInto(base, added) <==>
                          x in added || (x in base && forall a :: a in added ==> a.id != x.id)
  {
    if added != [] {
      var rest, last := added[..|added| - 1], added[|added| - 1];
      assert added == rest + [last];
      MergedIntoMembers(base, rest);
      UpsertMembers(MergedInto(base, rest), last);
      if DistinctIds(added) {
        assert forall x :: x in rest ==> x.id != last.id;
      }
    }
  }

  function Shipped(data: Dataset): seq<Collection> {
    MergedInto([], data.collections)
  }

  function Visible(data: Dataset, user: seq<Collection>): seq<Collection> {
    Merged(data.collections, user)
  }

  lemma {:induction false} VisibleMembers(data: Dataset, user: seq<Collection>)
    requires DistinctIds(user)
    ensures DistinctIds(Shipped(data)) && DistinctIds(Visible(data, user))
    ensures forall x :: x in Visible(data, user) <==>
                        x in user || (x in Shipped(data) && forall u :: u in user ==> u.id != x.id)
  {
    MergedIntoMembers([], data.collections);
    MergedIntoMembers(Shipped(data), user);
  }

  // ---------------------------------------------------------------- the operations

  function Author(createdBy: string): string {
    if createdBy == "" then "anonymous" else createdBy
  }

  function CreatedId(lib: Library, slug: string, author: string): string {
    StableId(lib.hasher, "project_collection", [slug, author])
  }

  function GeneratedId(lib: Library, slug: string, author: string): string {
    StableId(lib.hasher, "project_collection", ["generated", slug, author])
  }

  function Create(lib: Library, data: Dataset, user: seq<Collection>, request: CreateRequest)
    : Result<Collection, Failure>
  {
    var title, description := Strip(request.title), Strip(request.description);
    if title == "" then Err(TitleRequired)
    else if description == "" then Err(DescriptionRequired)
    else
      var slug := FreeSlug(lib.slugify(title), Slugs(Visible(data, user)));
      Ok(Collection(CreatedId(lib, slug, Author(request.createdBy)), slug, title, description, [], 0, request.createdBy))
  }

  function Filter(entries: seq<Entry>, keep: Entry -> bool): seq<Entry> {
    if entries == [] then []
    else Filter(entries[..|entries| - 1], keep) +
         if keep(entries[|entries| - 1]) then [entries[|entries| - 1]] else []
  }

  /** Ids named in the request select outright; without ids the topic selects. */
  function Select(lib: Library, topic: string, ids: seq<string>, entries: seq<Entry>): seq<Entry> {
    Filter(entries, e => if ids == [] then lib.matches(topic, e) else e.id in ids)
  }

  function Items(lib: Library, collectionId: string, kind: ItemKind, kindName: string, entries: seq<Entry>): seq<Item> {
    var n := if |entries| < 12 then |entries| else 12;
    seq(n, i requires 0 <= i < n => Item(StableId(lib.hasher, "collection_item", [collectionId, kindName, entries[i].id]),
                                         collectionId, kind, entries[i].id, i + 1, entries[i].name))
  }

  function TotalItems(sections: seq<Section>): nat {
    if sections == [] then 0 else TotalItems(sections[..|sections| - 1]) + |sections[|sections| - 1].items|
  }

  function SectionFor(lib: Library, collectionId: string, name: string, title: string, order: int, items: seq<Item>)
    : seq<Section>
  {
    if items == [] then [] else [Section(StableId(lib.hasher, "collection_section", [collectionId, name]), title, order, items)]
  }

  function Generate(lib: Library, data: Dataset, user: seq<Collection>, request: GenerateRequest)
    : Result<Collection, Failure>
  {
    var topic := Strip(request.topic);
    if topic == "" then Err(TopicRequired)
    else
      var projects := Select(lib, topic, request.projectIds, data.projects);
      var cases := Select(lib, topic, request.caseIds, data.cases);
      if projects == [] && cases == [] then Err(NothingMatches)
      else
        var slug := FreeSlug(lib.slugify(topic), Slugs(Visible(data, user)));
        var id := GeneratedId(lib, slug, Author(request.createdBy));
        var sections := SectionFor(lib, id, "projects", "Projects", 1, Items(lib, id, ProjectItem, "project", projects)) +
                        SectionFor(lib, id, "cases", "Cases", 2, Items(lib, id, CaseItem, "case", cases));
        Ok(Collection(id, slug, lib.titleCase(topic), topic, sections, TotalItems(sections), request.createdBy))
  }

  function KindName(kind: ItemKind): string {
    match kind
    case ProjectItem => "project"
    case ToolItem => "tool"
    case CaseItem => "case"
    case PatternItem => "pattern"
    case LinkItem => "external_link"
  }

  function NewItem(lib: Library, data: Dataset, c: Collection, request: ItemRequest): Result<Item, Failure> {
    if request.kind.LinkItem? && request.url == "" then Err(UrlRequired)
    else if (request.kind.ProjectItem? || request.kind.ToolItem?)
            && !(exists p :: p in data.projects && p.id == request.itemId) then Err(ProjectNotFound)
    else if request.kind.CaseItem? && !(exists e :: e in data.cases && e.id == request.itemId) then Err(CaseNotFound)
    else
      var order := if request.order != 0 then request.order else TotalItems(c.sections) + 1;
      var target := if request.itemId != "" then request.itemId else if request.url != "" then request.url else request.title;
      Ok(Item(StableId(lib.hasher, "collection_item", [c.id, KindName(request.kind), target, Signed(order)]),
              c.id, request.kind, target, order, Strip(request.title)))
  }

  function Signed(n: int): string {
    if n < 0 then "-" + Decimal(-n) else Decimal(n)
  }

  function WithItem(lib: Library, c: Collection, item: Item): Collection {
    var sections :=
      if c.sections != [] then c.sections[0 := c.sections[0].(items := c.sections[0].items + [item])]
      else [Section(StableId(lib.hasher, "collection_section", [c.id, "items"]), "Selected items", 1, [item])];
    c.(sections := sections, itemCount := TotalItems(sections))
  }

  predicate Named(c: Collection, key: string) {
    c.id == key || c.slug == key
  }

  /** The position of the first collection `key` names, or the length. */
  function FirstNamed(list: seq<Collection>, key: string): (i: nat)
    ensures i <= |list|
    ensures i < |list| ==> Named(list[i], key)
    ensures forall j :: 0 <= j < i ==> !Named(list[j], key)
  {
    if list == [] then 0 else if Named(list[0], key) then 0 else 1 + FirstNamed(list[1..], key)
  }

  /** The collection with one more item, `None` when no collection has that name, or a failure. */
  method AddItem(lib: Library, data: Dataset, user: seq<Collection>, key: string, request: ItemRequest)
    returns (updated: Result<Option<Collection>, Failure>)
    ensures
      var i := FirstNamed(user, key);
      updated ==
        if i == |user| then Ok(None)
        else match NewItem(lib, data, user[i], request)
             case Err(e) => Err(e)
             case Ok(item) => Ok(Some(WithItem(lib, user[i], item)))
  {
    for i := 0 to |user|
      invariant forall j :: 0 <= j < i ==> !Named(user[j], key)
    {
      if Named(user[i], key) {
        var item := NewItem(lib, data, user[i], request);
        match item
        case Err(e) => return Err(e);
        case Ok(it) => return Ok(Some(WithItem(lib, user[i], it)));
      }
    }
    updated := Ok(None);
  }

  function Replaced(list: seq<Collection>, updated: Collection): seq<Collection> {
    if exists c :: c in list && c.id == updated.id
    then seq(|list|, i requires 0 <= i < |list| => if list[i].id == updated.id then updated else list[i])
    else list + [updated]
  }

  method ReplaceCollection(list: seq<Collection>, updated: Collection) returns (result: seq<Collection>)
    ensures result == Replaced(list, updated)
  {
    var replaced := false;
    result := [];
    for i := 0 to |list|
      invariant |result| == i
      invariant replaced <==> exists c :: c in list[..i] && c.id == updated.id
      invariant forall j :: 0 <= j < i ==> result[j] == if list[j].id == updated.id then updated else list[j]
    {
      assert list[..i + 1] == list[..i] + [list[i]];
      if list[i].id == updated.id {
        result := result + [updated];
        replaced := true;
      } else {
        result := result + [list[i]];
      }
    }
    assert list[..|list|] == list;
    if !replaced {
      assert forall j :: 0 <= j < |list| ==> list[j].id != updated.id;
      assert result == list;
      result := result + [updated];
    }
  }

  /** A shipped collection is copied among the user's own before its first edit. */
  function Editable(data: Dataset, user: seq<Collection>, key: string): seq<Collection> {
    var i := FirstNamed(Shipped(data), key);
    if FirstNamed(user, key) == |user| && i < |Shipped(data)| then user + [Shipped(data)[i]] else user
  }

  datatype Op = CreateOp(create: CreateRequest) | GenerateOp(generate: GenerateRequest) | AddOp(key: string, add: ItemRequest)

  /** The stored list after the operation's updater, or the failure it raises. */
  function Exec(lib: Library, data: Dataset, user: seq<Collection>, op: Op): Result<seq<Collection>, Failure> {
    match op
    case CreateOp(request) =>
      (match Create(lib, data, user, request)
       case Err(e) => Err(e)
       case Ok(c) => Ok(user + [c]))
    case GenerateOp(request) =>
      (match Generate(lib, data, user, request)
       case Err(e) => Err(e)
       case Ok(c) => Ok(user + [c]))
    case AddOp(key, request) =>
      var editable := Editable(data, user, key);
      var i := FirstNamed(editable, key);
      if i == |editable| then Ok(user)
      else match NewItem(lib, data, editable[i], request)
           case Err(e) => Err(e)
           case Ok(item) => Ok(Replaced(editable, WithItem(lib, editable[i], item)))
  }

  /** The last of `after` is the empty collection asked for, behind all of the user's. */
  predicate CreatedAs(user: seq<Collection>, after: seq<Collection>, request: CreateRequest)
    requires after != []
  {
    var c := after[|after| - 1];
    && after == user + [c] && c.title == Strip(request.title) && c.description == Strip(request.description)
    && c.sections == [] && c.itemCount == 0 && c.createdBy == request.createdBy
  }

  predicate OneMoreShown(data: Dataset, user: seq<Collection>, after: seq<Collection>) {
    after != [] && Visible(data, after) == Visible(data, user) + [after[|after| - 1]]
  }

  method CreateCollection(lib: Library, data: Dataset, user: seq<Collection>, request: CreateRequest)
    returns (after: Result<seq<Collection>, Failure>)
    ensures after == Exec(lib, data, user, CreateOp(request))
    ensures after.Err? <==> Strip(request.title) == "" || Strip(request.description) == ""
    ensures after.Ok? ==> after.value != [] && CreatedAs(user, after.value, request)
    ensures after.Ok? ==> forall x :: x in Visible(data, user) ==> x.slug != after.value[|after.value| - 1].slug
    ensures after.Ok? && GoodLibrary(lib) && Sound(lib, data, user) ==>
              (OneMoreShown(data, user, after.value) <==> !TakesId(lib, data, user, CreateOp(request)))
  {
    var title, description := Strip(request.title), Strip(request.description);
    if title == "" {
      return Err(TitleRequired);
    }
    if description == "" {
      return Err(DescriptionRequired);
    }
    var existing := MergedCollections(data.collections, user);
    var slug := UniqueSlug(lib.slugify(title), existing);
    var c := Collection(CreatedId(lib, slug, Author(request.createdBy)), slug, title, description, [], 0, request.createdBy);
    after := Ok(user + [c]);
    forall x | x in Visible(data, user) ensures x.slug != c.slug {
      ShownSlug(data, Visible(data, user), c.slug, x);
    }
    if GoodLibrary(lib) && Sound(lib, data, user) {
      EachOperationChangesOneEntry(lib, data, user, CreateOp(request));
    }
  }

  /** The updater of `add_collection_item`. */
  method UpdateWithItem(lib: Library, data: Dataset, user: seq<Collection>, key: string, request: ItemRequest)
    returns (after: Result<seq<Collection>, Failure>)
    ensures after == Exec(lib, data, user, AddOp(key, request))
  {
    var editable := user;
    if FirstNamed(user, key) == |user| {
      var shipped := MergedCollections(data.collections, []);
      var i := FirstNamed(shipped, key);
      if i < |shipped| {
        editable := editable + [shipped[i]];
      }
    }
    var updated := AddItem(lib, data, editable, key, request);
    match updated
    case Err(e) => after := Err(e);
    case Ok(None) => after := Ok(user);
    case Ok(Some(c)) =>
      var list := ReplaceCollection(editable, c);
      after := Ok(list);
  }

  method AddCollectionItem(lib: Library, data: Dataset, user: seq<Collection>, key: string, request: ItemRequest)
    returns (after: Result<seq<Collection>, Failure>)
    ensures after == Exec(lib, data, user, AddOp(key, request))
    ensures after.Ok? && Sound(lib, data, user) ==> ItemAdded(data, user, key, after.value)
  {
    after := UpdateWithItem(lib, data, user, key, request);
    AddingWhenSound(lib, data, user, key, request, after);
  }

  function Run(lib: Library, data: Dataset, ops: seq<Op>): seq<Collection> {
    if ops == [] then []
    else
      var before := Run(lib, data, ops[..|ops| - 1]);
      match Exec(lib, data, before, ops[|ops| - 1])
      case Err(_) => before
      case Ok(after) => after
  }

  // ---------------------------------------------------------------- what every run keeps

  /** The hasher keeps its laws, and slugs are made of characters that normalizing leaves alone. */
  ghost predicate GoodLibrary(lib: Library) {
    Faithful(lib.hasher) && forall text :: PlainText(lib.hasher, lib.slugify(text))
  }

  predicate Minted(lib: Library, c: Collection) {
    && PlainText(lib.hasher, c.slug)
    && (c.id == CreatedId(lib, c.slug, Author(c.createdBy)) || c.id == GeneratedId(lib, c.slug, Author(c.createdBy)))
  }

  ghost predicate CopyOfShipped(data: Dataset, c: Collection) {
    exists a :: a in Shipped(data) && a.id == c.id && a.slug == c.slug
  }

  /** A collection of the user's or a shipped one has this id. */
  predicate Taken(data: Dataset, user: seq<Collection>, id: string) {
    (exists u :: u in user && u.id == id) || (exists a :: a in Shipped(data) && a.id == id)
  }

  ghost predicate SlugsIdentify(list: seq<Collection>) {
    forall x, y :: x in list && y in list && x.slug == y.slug ==> x == y
  }

  ghost predicate AllMinted(lib: Library, data: Dataset, user: seq<Collection>) {
    forall u :: u in user ==> Minted(lib, u) || CopyOfShipped(data, u)
  }

  predicate CountsRight(user: seq<Collection>) {
    forall u :: u in user ==> u.itemCount == TotalItems(u.sections)
  }

  /** A user's copy of a shipped collection is still found under its slug. */
  ghost predicate CopiesKeepSlugs(data: Dataset, user: seq<Collection>) {
    forall u, a :: u in user && a in Shipped(data) && u.id == a.id ==> u.slug == a.slug
  }

  ghost predicate Sound(lib: Library, data: Dataset, user: seq<Collection>) {
    && DistinctIds(user)
    && AllMinted(lib, data, user)
    && CountsRight(user)
    && CopiesKeepSlugs(data, user)
    && SlugsIdentify(Visible(data, user))
  }

  lemma {:induction false} DistinctWhenIdentified(list: seq<Collection>)
    requires DistinctIds(list)
    ensures SlugsIdentify(list) <==> DistinctSlugs(list)
  {
    forall i, j | 0 <= i < j < |list| && SlugsIdentify(list)
      ensures list[i].slug != list[j].slug
    {
      assert list[i] in list && list[j] in list && list[i].id != list[j].id;
    }
  }

  // ---------------------------------------------------------------- which new ids are taken

  lemma {:induction false} PlainConcat(h: Hasher, a: string, b: string)
    requires PlainText(h, a) && PlainText(h, b)
    ensures PlainText(h, a + b)
  {
  }

  lemma {:induction false} DecimalIsWord(n: nat)
    ensures IsWord(Decimal(n))
  {
    if n >= 10 { DecimalIsWord(n / 10); }
  }

  lemma {:induction false} NumberedIsPlain(h: Hasher, candidate: string, k: nat)
    requires Faithful(h) && PlainText(h, candidate)
    ensures PlainText(h, Numbered(candidate, k))
  {
    var suffix := "-" + Decimal(k);
    DecimalIsWord(k);
    WordIsPlain(h, suffix);
    PlainConcat(h, candidate, suffix);
    assert candidate + suffix == Numbered(candidate, k);
  }

  lemma {:induction false} FreeSlugIsPlain(h: Hasher, base: string, taken: set<string>)
    requires Faithful(h) && PlainText(h, base)
    ensures PlainText(h, FreeSlug(base, taken))
  {
    WordIsPlain(h, DEFAULT_SLUG);
    var candidate := if base == "" then DEFAULT_SLUG else base;
    if candidate in taken {
      NumberedIsPlain(h, candidate, FirstFree(candidate, taken, 2));
    }
  }

  lemma {:induction false} CreatedJoin(lib: Library, slug: string, author: string)
    requires PlainText(lib.hasher, slug)
    ensures Joined(lib.hasher, [slug, author]) == slug + "|" + Normalize(lib.hasher, author)
  {
    JoinedTwo(lib.hasher, slug, author);
    NormalizePlain(lib.hasher, slug);
  }

  lemma {:induction false} GeneratedJoin(lib: Library, slug: string, author: string)
    requires Faithful(lib.hasher) && PlainText(lib.hasher, slug)
    ensures Joined(lib.hasher, ["generated", slug, author]) == "generated" + "|" + (slug + "|" + Normalize(lib.hasher, author))
  {
    JoinedThree(lib.hasher, "generated", slug, author);
    NormalizePlain(lib.hasher, slug);
    NormalizeWord(lib.hasher, "generated");
  }

  /** Two created ids, or two generated ones, are equal exactly when slug and normalized author are; a
      created id is a generated one exactly when its slug is "generated" and its author reads like the
      other's slug, a bar and the other's author. */
  lemma {:induction false} MintedIdsCollideIff(lib: Library, s: string, a: string, s': string, a': string)
    requires Faithful(lib.hasher) && PlainText(lib.hasher, s) && PlainText(lib.hasher, s')
    ensures
      var n, n' := Normalize(lib.hasher, a), Normalize(lib.hasher, a');
      && (CreatedId(lib, s, a) == CreatedId(lib, s', a') <==> s == s' && n == n')
      && (GeneratedId(lib, s, a) == GeneratedId(lib, s', a') <==> s == s' && n == n')
      && (CreatedId(lib, s, a) == GeneratedId(lib, s', a') <==> s == "generated" && n == s' + "|" + n')
  {
    var h := lib.hasher;
    var n, n' := Normalize(h, a), Normalize(h, a');
    NormalizeWord(h, "generated");
    CreatedJoin(lib, s, a);
    CreatedJoin(lib, s', a');
    GeneratedJoin(lib, s, a);
    GeneratedJoin(lib, s', a');
    SplitAtBar(s, n, s', n');
    SplitAtBar("generated", s + "|" + n, "generated", s' + "|" + n');
    SplitAtBar(s, n, "generated", s' + "|" + n');
    SameIdIff(h, "project_collection", [s, a], [s', a']);
    SameIdIff(h, "project_collection", ["generated", s, a], ["generated", s', a']);
    SameIdIff(h, "project_collection", [s, a], ["generated", s', a']);
  }

  /** The author of a collection created under "generated" that reads like a generated one. */
  predicate ReadsAs(lib: Library, created: Collection, generated: Collection) {
    && created.slug == "generated"
    && Normalize(lib.hasher, Author(created.createdBy))
         == generated.slug + "|" + Normalize(lib.hasher, Author(generated.createdBy))
  }

  predicate IsCreated(lib: Library, c: Collection) {
    c.id == CreatedId(lib, c.slug, Author(c.createdBy))
  }

  predicate IsGenerated(lib: Library, c: Collection) {
    c.id == GeneratedId(lib, c.slug, Author(c.createdBy))
  }

  predicate Crossed(lib: Library, c: Collection, u: Collection) {
    && Minted(lib, u)
    && ((IsCreated(lib, c) && IsGenerated(lib, u) && ReadsAs(lib, c, u)) ||
        (IsGenerated(lib, c) && IsCreated(lib, u) && ReadsAs(lib, u, c)))
  }

  lemma {:induction false} SameIdIffCrossed(lib: Library, c: Collection, u: Collection)
    requires Faithful(lib.hasher) && Minted(lib, c) && Minted(lib, u) && c.slug != u.slug
    ensures c.id == u.id <==> Crossed(lib, c, u)
  {
    var a, a' := Author(c.createdBy), Author(u.createdBy);
    MintedIdsCollideIff(lib, c.slug, a, u.slug, a');
    MintedIdsCollideIff(lib, u.slug, a', c.slug, a);
  }

  lemma {:induction false} ShownSlug(data: Dataset, list: seq<Collection>, slug: string, x: Collection)
    requires slug !in Slugs(list) && x in list
    ensures x.slug != slug
  {
    assert x.slug in Slugs(list);
  }

  /** Every slug a user's or shipped collection has is shown. */
  lemma {:induction false} EveryNameIsShown(lib: Library, data: Dataset, user: seq<Collection>, x: Collection)
    requires Sound(lib, data, user) && (x in user || x in Shipped(data))
    ensures exists v :: v in Visible(data, user) && v.id == x.id && v.slug == x.slug
  {
    VisibleMembers(data, user);
    if x !in Visible(data, user) {
      var u :| u in user && u.id == x.id;
      assert u in Visible(data, user);
    }
  }

  /** When the id of a new collection, minted for a slug nobody sees, is taken: by a shipped collection of that
      very id, or by one of the user's whose author or whose own holds the bar. */
  lemma {:induction false} NewIdTakenIff(lib: Library, data: Dataset, user: seq<Collection>, c: Collection)
    requires Faithful(lib.hasher) && Sound(lib, data, user) && Minted(lib, c)
    requires c.slug !in Slugs(Visible(data, user))
    ensures Taken(data, user, c.id) <==>
              (exists a :: a in Shipped(data) && a.id == c.id) || (exists u :: u in user && Crossed(lib, c, u))
  {
    forall u | u in user
      ensures u.slug != c.slug
      ensures u.id == c.id && !Crossed(lib, c, u) ==> exists a :: a in Shipped(data) && a.id == c.id
      ensures Crossed(lib, c, u) ==> u.id == c.id
    {
      EveryNameIsShown(lib, data, user, u);
      var v :| v in Visible(data, user) && v.id == u.id && v.slug == u.slug;
      ShownSlug(data, Visible(data, user), c.slug, v);
      if Minted(lib, u) { SameIdIffCrossed(lib, c, u); }
    }
  }

  /** So no id is taken, shipped ids aside, as long as no author's name holds a bar. */
  lemma {:induction false} BarFreeAuthorsNeverCollide(lib: Library, data: Dataset, user: seq<Collection>, c: Collection)
    requires Faithful(lib.hasher) && Sound(lib, data, user) && Minted(lib, c)
    requires c.slug !in Slugs(Visible(data, user))
    requires '|' !in c.createdBy && forall u :: u in user ==> '|' !in u.createdBy
    ensures Taken(data, user, c.id) <==> exists a :: a in Shipped(data) && a.id == c.id
  {
    NewIdTakenIff(lib, data, user, c);
    forall u | u in user ensures !Crossed(lib, c, u) {
      NoBarNormalized(lib.hasher, Author(c.createdBy));
      NoBarNormalized(lib.hasher, Author(u.createdBy));
      assert (c.slug + "|" + Normalize(lib.hasher, Author(c.createdBy)))[|c.slug|] == '|';
      assert (u.slug + "|" + Normalize(lib.hasher, Author(u.createdBy)))[|u.slug|] == '|';
    }
  }

  // ---------------------------------------------------------------- one collection more

  ghost predicate Shows(data: Dataset, user: seq<Collection>, id: string, slug: string) {
    exists c :: c in Visible(data, user) && c.id == id && c.slug == slug
  }

  /** Whatever was shown is shown, under its id and its slug. */
  ghost predicate KeepsShown(data: Dataset, user: seq<Collection>, after: seq<Collection>) {
    forall id, slug :: Shows(data, user, id, slug) ==> Shows(data, after, id, slug)
  }

  lemma {:induction false} TakenIsShown(data: Dataset, user: seq<Collection>, id: string)
    requires DistinctIds(user)
    ensures Taken(data, user, id) <==> exists v :: v in Visible(data, user) && v.id == id
  {
    VisibleMembers(data, user);
    if a :| a in Shipped(data) && a.id == id && a !in Visible(data, user) {
      var u :| u in user && u.id == id;
      assert u in Visible(data, user);
    }
  }

  lemma {:induction false} VisibleAppend(data: Dataset, user: seq<Collection>, c: Collection)
    ensures Visible(data, user + [c]) == Upsert(Visible(data, user), c)
  {
    assert (user + [c])[..|user|] == user;
  }

  lemma {:induction false} AppendVisible(data: Dataset, user: seq<Collection>, c: Collection)
    requires DistinctIds(user) && !Taken(data, user, c.id)
    ensures Visible(data, user + [c]) == Visible(data, user) + [c]
    ensures KeepsShown(data, user, user + [c])
  {
    TakenIsShown(data, user, c.id);
    VisibleAppend(data, user, c);
    UpsertAppends(Visible(data, user), c);
  }

  lemma {:induction false} AppendDistinct(data: Dataset, user: seq<Collection>, c: Collection)
    requires DistinctIds(user) && !Taken(data, user, c.id)
    ensures DistinctIds(user + [c])
  {
  }

  lemma {:induction false} AppendMinted(lib: Library, data: Dataset, user: seq<Collection>, c: Collection)
    requires AllMinted(lib, data, user) && Minted(lib, c)
    ensures AllMinted(lib, data, user + [c])
  {
  }

  lemma {:induction false} AppendCounts(user: seq<Collection>, c: Collection)
    requires CountsRight(user) && c.itemCount == TotalItems(c.sections)
    ensures CountsRight(user + [c])
  {
  }

  lemma {:induction false} AppendCopies(data: Dataset, user: seq<Collection>, c: Collection)
    requires CopiesKeepSlugs(data, user) && !Taken(data, user, c.id)
    ensures CopiesKeepSlugs(data, user + [c])
  {
  }

  lemma {:induction false} AppendSlugs(data: Dataset, shown: seq<Collection>, c: Collection)
    requires SlugsIdentify(shown) && c.slug !in Slugs(shown)
    ensures SlugsIdentify(shown + [c])
  {
    forall x | x in shown ensures x.slug != c.slug {
      ShownSlug(data, shown, c.slug, x);
    }
  }

  /** Appending a collection whose id is free shows exactly that one more. */
  lemma {:induction false} AppendFree(lib: Library, data: Dataset, user: seq<Collection>, c: Collection)
    requires Sound(lib, data, user) && Minted(lib, c) && !Taken(data, user, c.id)
    requires c.slug !in Slugs(Visible(data, user)) && c.itemCount == TotalItems(c.sections)
    ensures Visible(data, user + [c]) == Visible(data, user) + [c]
    ensures Sound(lib, data, user + [c]) && KeepsShown(data, user, user + [c])
  {
    AppendVisible(data, user, c);
    AppendDistinct(data, user, c);
    AppendMinted(lib, data, user, c);
    AppendCounts(user, c);
    AppendCopies(data, user, c);
    AppendSlugs(data, Visible(data, user), c);
  }

  /** Appending one whose id is taken hides the collection that has it. */
  lemma {:induction false} AppendTaken(lib: Library, data: Dataset, user: seq<Collection>, c: Collection) returns (x: Collection)
    requires Sound(lib, data, user) && Taken(data, user, c.id) && c.slug !in Slugs(Visible(data, user))
    ensures x in Visible(data, user) && x.id == c.id && x.slug != c.slug
    ensures !Shows(data, user + [c], x.id, x.slug)
    ensures !Sound(lib, data, user + [c])
    ensures Visible(data, user + [c]) != Visible(data, user) + [c]
  {
    TakenIsShown(data, user, c.id);
    x :| x in Visible(data, user) && x.id == c.id;
    ShownSlug(data, Visible(data, user), c.slug, x);
    VisibleMembers(data, user);
    VisibleAppend(data, user, c);
    UpsertMembers(Visible(data, user), c);
    assert x !in Visible(data, user + [c]);
    forall v | v in Visible(data, user + [c]) && v.id == x.id ensures v.slug != x.slug {
      assert v == c;
    }
    NotSoundTaken(lib, data, user, c);
  }

  lemma {:induction false} NotSoundTaken(lib: Library, data: Dataset, user: seq<Collection>, c: Collection)
    requires Sound(lib, data, user) && Taken(data, user, c.id) && c.slug !in Slugs(Visible(data, user))
    ensures !Sound(lib, data, user + [c])
  {
    var longer := user + [c];
    assert longer[|user|] == c && c in longer;
    if u :| u in user && u.id == c.id {
      var i :| 0 <= i < |user| && user[i] == u;
      assert longer[i].id == longer[|user|].id;
    } else {
      var a :| a in Shipped(data) && a.id == c.id;
      EveryNameIsShown(lib, data, user, a);
      var v :| v in Visible(data, user) && v.id == a.id && v.slug == a.slug;
      ShownSlug(data, Visible(data, user), c.slug, v);
    }
  }

  /** Creating and generating show one collection more, keep the invariant and hide nothing, each exactly
      when the new id is free. */
  lemma {:induction false} AppendKeepsSoundIff(lib: Library, data: Dataset, user: seq<Collection>, c: Collection)
    requires Sound(lib, data, user) && Minted(lib, c)
    requires c.slug !in Slugs(Visible(data, user)) && c.itemCount == TotalItems(c.sections)
    ensures Sound(lib, data, user + [c]) <==> !Taken(data, user, c.id)
    ensures KeepsShown(data, user, user + [c]) <==> !Taken(data, user, c.id)
    ensures Visible(data, user + [c]) == Visible(data, user) + [c] <==> !Taken(data, user, c.id)
  {
    if Taken(data, user, c.id) {
      var x := AppendTaken(lib, data, user, c);
      assert Shows(data, user, x.id, x.slug);
    } else {
      AppendFree(lib, data, user, c);
    }
  }

  // ---------------------------------------------------------------- one item more

  lemma {:induction false} ReplacedIsUpdate(list: seq<Collection>, i: nat, updated: Collection)
    requires DistinctIds(list) && i < |list| && list[i].id == updated.id
    ensures Replaced(list, updated) == list[i := updated]
    ensures forall x :: x in list[i := updated] <==> x == updated || (x in list && x.id != updated.id)
  {
    assert list[i] in list;
    forall x
      ensures x in list[i := updated] <==> x == updated || (x in list && x.id != updated.id)
    {
      if x in list && x.id != updated.id {
        var j :| 0 <= j < |list| && list[j] == x;
        assert list[i := updated][j] == x;
      }
      if x == updated {
        assert list[i := updated][i] == x;
      }
    }
  }

  lemma {:induction false} OneMoreItem(sections: seq<Section>, item: Item)
    requires sections != []
    ensures TotalItems(sections[0 := sections[0].(items := sections[0].items + [item])]) == TotalItems(sections) + 1
  {
    var grown := sections[0 := sections[0].(items := sections[0].items + [item])];
    if |sections| > 1 {
      var front := sections[..|sections| - 1];
      OneMoreItem(front, item);
      assert grown[..|grown| - 1] == front[0 := front[0].(items := front[0].items + [item])];
    } else {
      assert grown[..0] == [] && sections[..0] == [];
    }
  }

  lemma {:induction false} WithItemAddsOne(lib: Library, c: Collection, item: Item)
    ensures
      var c' := WithItem(lib, c, item);
      && c'.id == c.id && c'.slug == c.slug && c'.createdBy == c.createdBy
      && c'.itemCount == TotalItems(c'.sections) == TotalItems(c.sections) + 1
  {
    if c.sections != [] {
      OneMoreItem(c.sections, item);
    } else {
      var s := WithItem(lib, c, item).sections;
      assert s[..0] == [];
    }
  }

  /** Copying a shipped collection shows the same collections under the same slugs, and its id is new
      among the user's. */
  lemma {:induction false} EditableKeepsVisible(lib: Library, data: Dataset, user: seq<Collection>, key: string)
    requires Sound(lib, data, user)
    ensures
      var editable := Editable(data, user, key);
      && DistinctIds(editable)
      && (forall x :: x in Visible(data, editable) <==> x in Visible(data, user))
      && AllMinted(lib, data, editable)
      && CopiesKeepSlugs(data, editable)
  {
    var editable := Editable(data, user, key);
    VisibleMembers(data, user);
    if editable != user {
      var a := Shipped(data)[FirstNamed(Shipped(data), key)];
      assert CopyOfShipped(data, a);
      forall u | u in user
        ensures u.id != a.id
      {
        assert !Named(u, key);
      }
      CopyKeepsVisible(data, user, a);
      forall b | b in Shipped(data) && b.id == a.id ensures b.slug == a.slug {
        SameIdSameEntry(Shipped(data), a, b);
      }
    }
  }

  lemma {:induction false} CopyKeepsVisible(data: Dataset, user: seq<Collection>, a: Collection)
    requires DistinctIds(user) && a in Shipped(data) && forall u :: u in user ==> u.id != a.id
    ensures DistinctIds(user + [a])
    ensures forall x :: x in Visible(data, user + [a]) <==> x in Visible(data, user)
  {
    VisibleMembers(data, user);
    VisibleMembers(data, user + [a]);
    forall x | x in Shipped(data) && x.id == a.id
      ensures x == a
    {
      SameIdSameEntry(Shipped(data), x, a);
    }
  }

  lemma {:induction false} SameIdSameEntry(list: seq<Collection>, x: Collection, y: Collection)
    requires DistinctIds(list) && x in list && y in list && x.id == y.id
    ensures x == y
  {
    var i :| 0 <= i < |list| && list[i] == x;
    var j :| 0 <= j < |list| && list[j] == y;
    assert i == j;
  }

  lemma {:induction false} UpdateDistinct(list: seq<Collection>, i: nat, c': Collection)
    requires DistinctIds(list) && i < |list| && c'.id == list[i].id
    ensures DistinctIds(list[i := c'])
  {
  }

  lemma {:induction false} UpdateMinted(lib: Library, data: Dataset, list: seq<Collection>, i: nat, c': Collection)
    requires AllMinted(lib, data, list) && i < |list|
    requires c'.id == list[i].id && c'.slug == list[i].slug && c'.createdBy == list[i].createdBy
    ensures AllMinted(lib, data, list[i := c'])
  {
    var c, after := list[i], list[i := c'];
    assert c in list;
    if CopyOfShipped(data, c) {
      var a :| a in Shipped(data) && a.id == c.id && a.slug == c.slug;
      assert CopyOfShipped(data, c');
    }
    forall u | u in after ensures Minted(lib, u) || CopyOfShipped(data, u) {
      if u != c' { assert u in list; }
    }
  }

  lemma {:induction false} UpdateCounts(list: seq<Collection>, i: nat, c': Collection)
    requires i < |list| && c'.itemCount == TotalItems(c'.sections)
    requires forall j :: 0 <= j < |list| && j != i ==> list[j].itemCount == TotalItems(list[j].sections)
    ensures CountsRight(list[i := c'])
  {
  }

  lemma {:induction false} UpdateCopies(data: Dataset, list: seq<Collection>, i: nat, c': Collection)
    requires CopiesKeepSlugs(data, list) && i < |list| && c'.id == list[i].id && c'.slug == list[i].slug
    ensures CopiesKeepSlugs(data, list[i := c'])
  {
    assert list[i] in list;
    forall u | u in list[i := c'] ensures u == c' || u in list {}
  }

  lemma {:induction false} UpdateSlugs(shown: seq<Collection>, after: seq<Collection>, c: Collection, c': Collection)
    requires SlugsIdentify(shown) && c in shown && c'.slug == c.slug
    requires forall x :: x in after <==> x == c' || (x in shown && x != c)
    ensures SlugsIdentify(after)
  {
  }

  /** Everyone but the collection that gets the item was the user's own before, so its count was right. */
  lemma {:induction false} OtherCounts(data: Dataset, user: seq<Collection>, key: string, j: nat)
    requires CountsRight(user) && j < |Editable(data, user, key)| && j != FirstNamed(Editable(data, user, key), key)
    ensures
      var u := Editable(data, user, key)[j];
      u.itemCount == TotalItems(u.sections)
  {
    var editable := Editable(data, user, key);
    if j < |user| {
      assert editable[j] == user[j] && user[j] in user;
    }
  }

  lemma {:induction false} AddKeepsSound(lib: Library, data: Dataset, user: seq<Collection>, key: string, item: Item)
    requires Sound(lib, data, user)
    requires FirstNamed(Editable(data, user, key), key) < |Editable(data, user, key)|
    ensures
      var editable := Editable(data, user, key);
      var c := editable[FirstNamed(editable, key)];
      var c' := WithItem(lib, c, item);
      && Sound(lib, data, Replaced(editable, c'))
      && (forall x :: x in Visible(data, Replaced(editable, c')) <==>
                      x == c' || (x in Visible(data, user) && x != c))
  {
    var editable := Editable(data, user, key);
    var i := FirstNamed(editable, key);
    var c, c' := editable[i], WithItem(lib, editable[i], item);
    EditableKeepsVisible(lib, data, user, key);
    WithItemAddsOne(lib, c, item);
    ReplacedIsUpdate(editable, i, c');
    UpdateDistinct(editable, i, c');
    UpdateMinted(lib, data, editable, i, c');
    forall j: nat | j < |editable| && j != i
      ensures editable[j].itemCount == TotalItems(editable[j].sections)
    {
      OtherCounts(data, user, key, j);
    }
    UpdateCounts(editable, i, c');
    UpdateCopies(data, editable, i, c');
    UpdateShows(data, user, editable, i, c');
  }

  lemma {:induction false} UpdateShows(data: Dataset, user: seq<Collection>, editable: seq<Collection>, i: nat, c': Collection)
    requires DistinctIds(editable) && i < |editable| && c'.id == editable[i].id && c'.slug == editable[i].slug
    requires DistinctIds(editable[i := c']) && SlugsIdentify(Visible(data, user))
    requires forall x :: x in Visible(data, editable) <==> x in Visible(data, user)
    ensures forall x :: x in Visible(data, editable[i := c']) <==> x == c' || (x in Visible(data, user) && x != editable[i])
    ensures SlugsIdentify(Visible(data, editable[i := c']))
  {
    forall x
      ensures x in Visible(data, editable[i := c']) <==> x == c' || (x in Visible(data, user) && x != editable[i])
    {
      VisibleAfterUpdate(data, editable, editable[i := c'], i, c', x);
    }
    VisibleMembers(data, editable);
    assert editable[i] in editable;
    UpdateSlugs(Visible(data, user), Visible(data, editable[i := c']), editable[i], c');
  }

  lemma {:induction false} VisibleAfterUpdate(data: Dataset, editable: seq<Collection>, after: seq<Collection>, i: nat, c': Collection, x: Collection)
    requires DistinctIds(editable) && DistinctIds(after)
    requires i < |editable| && c'.id == editable[i].id && after == editable[i := c']
    ensures x in Visible(data, after) <==> x == c' || (x in Visible(data, editable) && x != editable[i])
  {
    VisibleMembers(data, editable);
    VisibleMembers(data, after);
    ReplacedIsUpdate(editable, i, c');
    assert editable[i] in editable;
    if x in editable && x.id == c'.id {
      SameIdSameEntry(editable, x, editable[i]);
    }
  }

  // ---------------------------------------------------------------- the theorems over runs

  lemma {:induction false} CreatedIsFresh(lib: Library, data: Dataset, user: seq<Collection>, op: Op)
    requires GoodLibrary(lib) && !op.AddOp? && Exec(lib, data, user, op).Ok?
    ensures
      var after := Exec(lib, data, user, op).value;
      after != [] &&
      var c := after[|after| - 1];
      && after == user + [c] && Minted(lib, c)
      && c.slug !in Slugs(Visible(data, user)) && c.itemCount == TotalItems(c.sections)
  {
    var taken := Slugs(Visible(data, user));
    if op.CreateOp? {
      var c := Create(lib, data, user, op.create).value;
      assert Exec(lib, data, user, op).value == user + [c];
      assert c.sections == [];
      FreeSlugIsPlain(lib.hasher, lib.slugify(Strip(op.create.title)), taken);
    } else {
      var c := Generate(lib, data, user, op.generate).value;
      assert Exec(lib, data, user, op).value == user + [c];
      FreeSlugIsPlain(lib.hasher, lib.slugify(Strip(op.generate.topic)), taken);
    }
  }

  /** The operation would create a collection under an id that is taken. */
  predicate TakesId(lib: Library, data: Dataset, user: seq<Collection>, op: Op) {
    !op.AddOp? && Exec(lib, data, user, op).Ok? &&
    var after := Exec(lib, data, user, op).value;
    after != [] && Taken(data, user, after[|after| - 1].id)
  }

  /** Every operation that goes through keeps the invariant, and everything that was shown, exactly when it
      takes no id. */
  lemma {:induction false} ExecKeepsSoundIff(lib: Library, data: Dataset, user: seq<Collection>, op: Op)
    requires GoodLibrary(lib) && Sound(lib, data, user) && Exec(lib, data, user, op).Ok?
    ensures Sound(lib, data, Exec(lib, data, user, op).value) <==> !TakesId(lib, data, user, op)
    ensures KeepsShown(data, user, Exec(lib, data, user, op).value) <==> !TakesId(lib, data, user, op)
  {
    var after := Exec(lib, data, user, op).value;
    if !op.AddOp? {
      CreatedIsFresh(lib, data, user, op);
      AppendKeepsSoundIff(lib, data, user, after[|after| - 1]);
    } else {
      AddOpKeepsSound(lib, data, user, op);
    }
  }

  lemma {:induction false} AddOpKeepsSound(lib: Library, data: Dataset, user: seq<Collection>, op: Op)
    requires op.AddOp? && Sound(lib, data, user) && Exec(lib, data, user, op).Ok?
    ensures Sound(lib, data, Exec(lib, data, user, op).value)
    ensures KeepsShown(data, user, Exec(lib, data, user, op).value)
  {
    var after := Exec(lib, data, user, op).value;
    var editable := Editable(data, user, op.key);
    var i := FirstNamed(editable, op.key);
    if i < |editable| {
      var item := NewItem(lib, data, editable[i], op.add).value;
      var c := editable[i];
      var c' := WithItem(lib, c, item);
      AddKeepsSound(lib, data, user, op.key, item);
      WithItemAddsOne(lib, c, item);
      forall id, slug | Shows(data, user, id, slug)
        ensures Shows(data, after, id, slug)
      {
        var x :| x in Visible(data, user) && x.id == id && x.slug == slug;
        assert (if x == c then c' else x) in Visible(data, after);
      }
    }
  }

  /** `after` differs from `before` in one entry, which keeps its names and has one item more. */
  ghost predicate OneEntryGrew(before: seq<Collection>, after: seq<Collection>, c: Collection, c': Collection) {
    && c in before
    && c'.id == c.id && c'.slug == c.slug && c'.itemCount == TotalItems(c'.sections) == TotalItems(c.sections) + 1
    && forall x :: x in after <==> x == c' || (x in before && x != c)
  }

  /** Nothing has changed when no shown collection has the name, and else one entry, by one item. */
  ghost predicate ItemAdded(data: Dataset, user: seq<Collection>, key: string, after: seq<Collection>) {
    if forall x :: x in Visible(data, user) ==> !Named(x, key) then after == user
    else exists c, c' :: Named(c, key) && OneEntryGrew(Visible(data, user), Visible(data, after), c, c')
  }

  lemma {:induction false} AddingChangesOneEntry(lib: Library, data: Dataset, user: seq<Collection>, op: Op)
    requires op.AddOp? && Sound(lib, data, user) && Exec(lib, data, user, op).Ok?
    ensures ItemAdded(data, user, op.key, Exec(lib, data, user, op).value)
  {
    var after := Exec(lib, data, user, op).value;
    var editable := Editable(data, user, op.key);
    var i := FirstNamed(editable, op.key);
    EditableKeepsVisible(lib, data, user, op.key);
    VisibleMembers(data, editable);
    if i < |editable| {
      var c := editable[i];
      var item := NewItem(lib, data, c, op.add).value;
      AddKeepsSound(lib, data, user, op.key, item);
      WithItemAddsOne(lib, c, item);
      assert c in editable;
      assert c in Visible(data, user) && Named(c, op.key);
      var c' := WithItem(lib, c, item);
      assert OneEntryGrew(Visible(data, user), Visible(data, after), c, c');
    } else {
      VisibleMembers(data, user);
      forall x | x in Visible(data, user) ensures !Named(x, op.key) {
        if x in user {
          var j :| 0 <= j < |user| && user[j] == x;
          assert editable[j] == x;
        } else {
          var j :| 0 <= j < |Shipped(data)| && Shipped(data)[j] == x;
        }
      }
    }
  }

  lemma {:induction false} AddingWhenSound(
    lib: Library, data: Dataset, user: seq<Collection>, key: string, request: ItemRequest, after: Result<seq<Collection>, Failure>)
    requires after == Exec(lib, data, user, AddOp(key, request))
    ensures after.Ok? && Sound(lib, data, user) ==> ItemAdded(data, user, key, after.value)
  {
    if after.Ok? && Sound(lib, data, user) {
      AddingChangesOneEntry(lib, data, user, AddOp(key, request));
    }
  }

  /** Every operation but those that take an id adds one entry to what is shown or changes one entry by one
      item. */
  lemma {:induction false} EachOperationChangesOneEntry(lib: Library, data: Dataset, user: seq<Collection>, op: Op)
    requires GoodLibrary(lib) && Sound(lib, data, user) && Exec(lib, data, user, op).Ok?
    ensures
      var after := Exec(lib, data, user, op).value;
      if op.AddOp? then ItemAdded(data, user, op.key, after)
      else OneMoreShown(data, user, after) <==> !TakesId(lib, data, user, op)
  {
    if !op.AddOp? {
      CreatedIsFresh(lib, data, user, op);
      var after := Exec(lib, data, user, op).value;
      AppendKeepsSoundIff(lib, data, user, after[|after| - 1]);
    } else {
      AddingChangesOneEntry(lib, data, user, op);
    }
  }

  /** No operation of the run takes an id. */
  predicate NoneTaken(lib: Library, data: Dataset, ops: seq<Op>) {
    ops == [] ||
    (NoneTaken(lib, data, ops[..|ops| - 1]) && !TakesId(lib, data, Run(lib, data, ops[..|ops| - 1]), ops[|ops| - 1]))
  }

  ghost predicate SoundThroughout(lib: Library, data: Dataset, ops: seq<Op>) {
    Sound(lib, data, Run(lib, data, ops)) && (ops == [] || SoundThroughout(lib, data, ops[..|ops| - 1]))
  }

  /** No step of the run hides what was shown before it. */
  ghost predicate NothingHidden(lib: Library, data: Dataset, ops: seq<Op>) {
    ops == [] ||
    (NothingHidden(lib, data, ops[..|ops| - 1]) &&
     KeepsShown(data, Run(lib, data, ops[..|ops| - 1]), Run(lib, data, ops)))
  }

  lemma {:induction false} NothingUserMadeIsSound(lib: Library, data: Dataset)
    ensures Sound(lib, data, []) <==> DistinctSlugs(Shipped(data))
  {
    VisibleMembers(data, []);
    DistinctWhenIdentified(Shipped(data));
  }

  /** Over every run: the invariant holds throughout, and nothing shown is ever hidden, each exactly when no
      operation takes an id. */
  lemma {:induction false} RunSoundIff(lib: Library, data: Dataset, ops: seq<Op>)
    requires GoodLibrary(lib) && DistinctSlugs(Shipped(data))
    ensures SoundThroughout(lib, data, ops) <==> NoneTaken(lib, data, ops)
    ensures NothingHidden(lib, data, ops) <==> NoneTaken(lib, data, ops)
  {
    if ops == [] {
      NothingUserMadeIsSound(lib, data);
    } else {
      var front, op := ops[..|ops| - 1], ops[|ops| - 1];
      var before := Run(lib, data, front);
      RunSoundIff(lib, data, front);
      if SoundThroughout(lib, data, front) && Exec(lib, data, before, op).Ok? {
        ExecKeepsSoundIff(lib, data, before, op);
      }
    }
  }

  /** A collection once shown stays shown, under its id and its slug, whatever is done later, as long as no
      id is taken. */
  lemma {:induction false} ShownStaysShown(lib: Library, data: Dataset, ops: seq<Op>, later: nat, id: string, slug: string)
    requires GoodLibrary(lib) && DistinctSlugs(Shipped(data)) && NoneTaken(lib, data, ops)
    requires later <= |ops| && Shows(data, Run(lib, data, ops[..later]), id, slug)
    ensures Shows(data, Run(lib, data, ops), id, slug)
    decreases |ops|
  {
    if later == |ops| {
      assert ops[..later] == ops;
    } else {
      var front := ops[..|ops| - 1];
      assert front[..later] == ops[..later];
      ShownStaysShown(lib, data, front, later, id, slug);
      RunSoundIff(lib, data, ops);
    }
  }

  // ---------------------------------------------------------------- a bar in an author's name

  const OneProject := Dataset([], [Entry("p", "P", [])], [])
  const CreateByBar := CreateOp(CreateRequest("Generated", "d", "foo|bob"))
  const GenerateFoo := GenerateOp(GenerateRequest("foo", ["p"], [], "bob"))

  /** "Generated" created by "foo|bob", then "foo" generated by "bob": two slugs and one id, so the second
      collection takes the place of the first, which is no longer shown. */
  lemma {:induction false} BarInAuthorHidesCollection(lib: Library)
    requires GoodLibrary(lib) && lib.slugify("Generated") == "generated" && lib.slugify("foo") == "foo"
    ensures
      var id := CreatedId(lib, "generated", "foo|bob");
      && Shows(OneProject, Run(lib, OneProject, [CreateByBar]), id, "generated")
      && TakesId(lib, OneProject, Run(lib, OneProject, [CreateByBar]), GenerateFoo)
      && !Shows(OneProject, Run(lib, OneProject, [CreateByBar, GenerateFoo]), id, "generated")
  {
    var first := FirstCreated(lib);
    var second := ThenGenerated(lib, first);
    BarIds(lib);
    VisibleMembers(OneProject, [first]);
    assert first in Visible(OneProject, [first]);
    VisibleAppend(OneProject, [first], second);
    assert [CreateByBar, GenerateFoo][..1] == [CreateByBar];
    assert Run(lib, OneProject, [CreateByBar, GenerateFoo]) == [first] + [second];
    assert Upsert([first], second) == [second];
  }

  lemma {:induction false} BarIds(lib: Library)
    requires GoodLibrary(lib)
    ensures CreatedId(lib, "generated", "foo|bob") == GeneratedId(lib, "foo", "bob")
  {
    var h := lib.hasher;
    assert PlainText(h, "generated") by { WordIsPlain(h, "generated"); }
    assert PlainText(h, "foo") by { WordIsPlain(h, "foo"); }
    NormalizeWord(h, "bob");
    BarNormalized(h);
    MintedIdsCollideIff(lib, "generated", "foo|bob", "foo", "bob");
  }

  lemma {:induction false} BarNormalized(h: Hasher)
    requires Faithful(h)
    ensures Normalize(h, "foo|bob") == "foo" + "|" + "bob"
  {
    var text := "foo|bob";
    StripIff(text);
    assert forall i :: 0 <= i < |text| ==> h.fold(text[i]) == [text[i]];
    FoldSame(h, text);
  }

  lemma {:induction false} FoldSame(h: Hasher, s: string)
    requires forall i :: 0 <= i < |s| ==> h.fold(s[i]) == [s[i]]
    ensures Fold(h, s) == s
  {
    if s != "" {
      FoldSame(h, s[1..]);
      assert s == [s[0]] + s[1..];
    }
  }

  lemma {:induction false} FirstCreated(lib: Library) returns (c: Collection)
    requires lib.slugify("Generated") == "generated"
    ensures Run(lib, OneProject, [CreateByBar]) == [c] && Visible(OneProject, [c]) == [c]
    ensures c.slug == "generated" && c.id == CreatedId(lib, "generated", "foo|bob")
  {
    StripIff("Generated");
    StripIff("d");
    assert Visible(OneProject, []) == [];
    assert FreeSlug("generated", Slugs([])) == "generated";
    c := Create(lib, OneProject, [], CreateByBar.create).value;
    assert [CreateByBar][..0] == [];
    assert [c][..0] == [];
    assert c.slug == "generated";
    assert [] + [c] == [c];
    assert Exec(lib, OneProject, [], CreateByBar) == Ok([] + [c]);
  }

  lemma {:induction false} SelectNamed(lib: Library, topic: string, e: Entry)
    ensures Select(lib, topic, [e.id], [e]) == [e]
  {
    FilterOne(x => if [e.id] == [] then lib.matches(topic, x) else x.id in [e.id], e);
  }

  lemma {:induction false} FilterOne(keep: Entry -> bool, e: Entry)
    requires keep(e)
    ensures Filter([e], keep) == [e]
  {
    assert [e][..0] == [];
  }

  lemma {:induction false} ThenGenerated(lib: Library, first: Collection) returns (c: Collection)
    requires lib.slugify("foo") == "foo" && first.slug == "generated" && Visible(OneProject, [first]) == [first]
    ensures Exec(lib, OneProject, [first], GenerateFoo) == Ok([first] + [c])
    ensures c.slug == "foo" && c.id == GeneratedId(lib, "foo", "bob")
  {
    StripIff("foo");
    assert "foo" !in Slugs([first]);
    SelectNamed(lib, "foo", OneProject.projects[0]);
    assert Select(lib, "foo", GenerateFoo.generate.projectIds, OneProject.projects) != [];
    c := Generate(lib, OneProject, [first], GenerateFoo.generate).value;
  }
}
