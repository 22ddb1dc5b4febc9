/** Resolving a set into its parts and the number of each that one set needs. */
module SetInfo {
  import opened Common
  import opened Market
  import opened MarketAdapter

  datatype SetPart = SetPart(name: string, slug: string, count: int)

  datatype SetDescription = SetDescription(name: string, slug: string, parts: seq<SetPart>)

  datatype SetError =
    | FetchingItem
    | NotASet
    | FetchingItems
    | FetchingRecipe
    | FetchingPart(slug: string)
    | FetchingOrders(slug: string)

  /** The remote services as they answer during one request; None is a failed call.  A recipe call that succeeds
      may still find no recipe. */
  datatype Backend = Backend(
    item: string -> Option<ItemDetail>,
    items: Option<seq<Item>>,
    recipe: string -> Option<Option<Recipe>>,
    orders: string -> Option<seq<Order>>)

  // ---------- The two lookups: a later entry replaces an earlier one with the same key ----------

  function LastItem(items: seq<Item>, id: string): Option<Item> {
    if items == [] then None
    else if items[|items| - 1].id == id then Some(items[|items| - 1])
    else LastItem(items[..|items| - 1], id)
  }

  function LastCount(ingredients: seq<RecipeIngredient>, gameRef: string): Option<int> {
    if ingredients == [] then None
    else if ingredients[|ingredients| - 1].itemType == gameRef then Some(ingredients[|ingredients| - 1].itemCount)
    else LastCount(ingredients[..|ingredients| - 1], gameRef)
  }

  lemma {:induction false} LastItemIsLast(items: seq<Item>, id: string)
    ensures match LastItem(items, id)
      case None => forall k :: 0 <= k < |items| ==> items[k].id != id
      case Some(x) => exists k ::
        && 0 <= k < |items| && items[k] == x && x.id == id
        && forall j :: k < j < |items| ==> items[j].id != id
  {
    if items != [] && items[|items| - 1].id != id { LastItemIsLast(items[..|items| - 1], id); }
  }

  lemma {:induction false} LastCountIsLast(ings: seq<RecipeIngredient>, gameRef: string)
    ensures match LastCount(ings, gameRef)
      case None => forall k :: 0 <= k < |ings| ==> ings[k].itemType != gameRef
      case Some(n) => exists k ::
        && 0 <= k < |ings| && ings[k] == RecipeIngredient(gameRef, n)
        && forall j :: k < j < |ings| ==> ings[j].itemType != gameRef
  {
    if ings != [] && ings[|ings| - 1].itemType != gameRef { LastCountIsLast(ings[..|ings| - 1], gameRef); }
  }

  // ---------- One part, and all of them ----------

  function Ingredients(recipe: Option<Recipe>): seq<RecipeIngredient> {
    if recipe.None? then [] else recipe.value.ingredients
  }

  function NeededCount(ingredients: seq<RecipeIngredient>, gameRef: string): int {
    var count := LastCount(ingredients, gameRef).GetOr(0);
    if count == 0 then 1 else count
  }

  /** Part ids that lead to a part: not the set itself, and listed in the catalogue. */
  predicate Resolvable(setID: string, items: seq<Item>, partID: string) {
    partID != setID && LastItem(items, partID).Some?
  }

  function PartFor(b: Backend, items: seq<Item>, ingredients: seq<RecipeIngredient>,
                   partID: string): Result<SetPart, SetError>
    requires LastItem(items, partID).Some?
  {
    var part := LastItem(items, partID).value;
    match b.item(part.slug)
    case None => Err(FetchingPart(part.slug))
    case Some(detail) => Ok(SetPart(part.name, part.slug, NeededCount(ingredients, detail.gameRef)))
  }

  function PartsFor(b: Backend, setID: string, items: seq<Item>, ingredients: seq<RecipeIngredient>,
                    ids: seq<string>): Result<seq<SetPart>, SetError> {
    if ids == [] then Ok([])
    else
      var partID := ids[|ids| - 1];
      match PartsFor(b, setID, items, ingredients, ids[..|ids| - 1])
      case Err(e) => Err(e)
      case Ok(parts) =>
        if !Resolvable(setID, items, partID) then Ok(parts)
        else match PartFor(b, items, ingredients, partID) case Err(e) => Err(e) case Ok(part) => Ok(parts + [part])
  }

  function Describe(b: Backend, slug: string): Result<SetDescription, SetError> {
    match b.item(slug)
    case None => Err(FetchingItem)
    case Some(item) =>
      if !item.setRoot then Err(NotASet)
      else match b.items
        case None => Err(FetchingItems)
        case Some(items) =>
          match b.recipe(item.gameRef)
          case None => Err(FetchingRecipe)
          case Some(recipe) =>
            match PartsFor(b, item.id, items, Ingredients(recipe), item.setParts)
            case Err(e) => Err(e)
            case Ok(parts) => Ok(SetDescription(item.name, item.slug, parts))
  }

  /** The parts are those of the resolvable ids, in their order, unless a detail request fails; then the failure
      reported is the first one. */
  lemma {:induction false} PartsForOutcome(b: Backend, setID: string, items: seq<Item>, ings: seq<RecipeIngredient>,
                                           ids: seq<string>)
    ensures var wanted := Select((id: string) => Resolvable(setID, items, id), ids);
      (forall id :: id in wanted ==> LastItem(items, id).Some?)
      && match PartsFor(b, setID, items, ings, ids)
         case Ok(parts) =>
           && |parts| == |wanted|
           && forall k :: 0 <= k < |wanted| ==> PartFor(b, items, ings, wanted[k]) == Ok(parts[k])
         case Err(e) => exists k :: 0 <= k < |wanted| && PartFor(b, items, ings, wanted[k]) == Err(e)
                          && forall j :: 0 <= j < k ==> PartFor(b, items, ings, wanted[j]).Ok?
  {
    if ids == [] {
    } else {
      var init, last := ids[..|ids| - 1], ids[|ids| - 1];
      var p := (id: string) => Resolvable(setID, items, id);
      PartsForOutcome(b, setID, items, ings, init);
      SelectSnoc(p, init, last);
      assert ids == init + [last];
      var before, wanted := Select(p, init), Select(p, ids);
      assert forall k :: 0 <= k < |before| ==> wanted[k] == before[k];
      match PartsFor(b, setID, items, ings, init)
      case Err(e) =>
        var k :| 0 <= k < |before| && PartFor(b, items, ings, before[k]) == Err(e)
          && forall j :: 0 <= j < k ==> PartFor(b, items, ings, before[j]).Ok?;
        assert wanted[k] == before[k];
      case Ok(parts) =>
        if p(last) { assert wanted[|before|] == last; }
    }
  }

  lemma {:induction false} PartsForErrorSticks(b: Backend, setID: string, items: seq<Item>, ings: seq<RecipeIngredient>,
                                               ids: seq<string>, n: nat)
    requires n <= |ids| && PartsFor(b, setID, items, ings, ids[..n]).Err?
    ensures PartsFor(b, setID, items, ings, ids) == PartsFor(b, setID, items, ings, ids[..n])
    decreases |ids|
  {
    if n < |ids| {
      assert ids[..|ids| - 1][..n] == ids[..n];
      PartsForErrorSticks(b, setID, items, ings, ids[..|ids| - 1], n);
    } else {
      assert ids[..n] == ids;
    }
  }

  /** Ingredient k is the last one with the game reference. */
  ghost predicate IsLastIngredient(ings: seq<RecipeIngredient>, gameRef: string, k: nat) {
    k < |ings| && ings[k].itemType == gameRef && forall j :: k < j < |ings| ==> ings[j].itemType != gameRef
  }

  /** The count of a part is that of the last ingredient with its game reference, or 1 when there is none or it is 0. */
  lemma NeededCountMeaning(ings: seq<RecipeIngredient>, gameRef: string)
    ensures (forall k :: 0 <= k < |ings| ==> ings[k].itemType != gameRef) ==> NeededCount(ings, gameRef) == 1
    ensures forall k: nat :: IsLastIngredient(ings, gameRef, k) ==>
      NeededCount(ings, gameRef) == if ings[k].itemCount == 0 then 1 else ings[k].itemCount
  {
    LastCountIsLast(ings, gameRef);
  }

  // ---------- What a description says, over the services' answers alone ----------

  /** Entry j is the last catalogue entry with the id. */
  ghost predicate IsLastListed(items: seq<Item>, id: string, j: nat) {
    j < |items| && items[j].id == id && forall i :: j < i < |items| ==> items[i].id != id
  }

  /** count is what one set needs of the item with the game reference: the amount of its last ingredient, one when there
      is none or the amount is zero. */
  ghost predicate IsNeeded(ings: seq<RecipeIngredient>, gameRef: string, count: int) {
    || (exists j: nat ::
          IsLastIngredient(ings, gameRef, j) && count == if ings[j].itemCount == 0 then 1 else ings[j].itemCount)
    || ((forall j :: 0 <= j < |ings| ==> ings[j].itemType != gameRef) && count == 1)
  }

  /** at are the positions of the part ids that lead to a part: not the set's own, and listed. */
  ghost predicate ArePartPositions(item: ItemDetail, items: seq<Item>, at: seq<nat>) {
    && (forall i, j :: 0 <= i < j < |at| ==> at[i] < at[j])
    && (forall i :: 0 <= i < |at| ==> at[i] < |item.setParts|)
    && (forall k: nat :: k in at <==>
          && k < |item.setParts| && item.setParts[k] != item.id
          && exists j: nat :: j < |items| && items[j].id == item.setParts[k])
  }

  /** The part listed under the id, with the count for the game reference its own detail gives. */
  ghost predicate IsPart(b: Backend, items: seq<Item>, ings: seq<RecipeIngredient>, id: string, part: SetPart) {
    exists j: nat ::
      && IsLastListed(items, id, j)
      && part.name == items[j].name && part.slug == items[j].slug
      && b.item(items[j].slug).Some? && IsNeeded(ings, b.item(items[j].slug).value.gameRef, part.count)
  }

  ghost predicate IsAvailable(b: Backend, items: seq<Item>, id: string) {
    exists j: nat :: IsLastListed(items, id, j) && b.item(items[j].slug).Some?
  }

  /** The detail of the part listed under the id cannot be fetched, and e says so. */
  ghost predicate IsMissing(b: Backend, items: seq<Item>, id: string, e: SetError) {
    exists j: nat :: IsLastListed(items, id, j) && b.item(items[j].slug).None? && e == FetchingPart(items[j].slug)
  }

  /** r describes the set item with the given catalogue and ingredients, or names the first part that is missing. */
  ghost predicate DescribesParts(b: Backend, item: ItemDetail, items: seq<Item>, ings: seq<RecipeIngredient>,
                                 at: seq<nat>, r: Result<SetDescription, SetError>)
    requires ArePartPositions(item, items, at)
  {
    match r
    case Ok(info) =>
      && info.name == item.name && info.slug == item.slug && |info.parts| == |at|
      && forall k :: 0 <= k < |at| ==> IsPart(b, items, ings, item.setParts[at[k]], info.parts[k])
    case Err(e) =>
      exists k: nat ::
        && k < |at| && IsMissing(b, items, item.setParts[at[k]], e)
        && forall i :: 0 <= i < k ==> IsAvailable(b, items, item.setParts[at[i]])
  }

  /** The answer to a request for the set with the slug. */
  ghost predicate IsDescription(b: Backend, slug: string, r: Result<SetDescription, SetError>) {
    match b.item(slug)
    case None => r == Err(FetchingItem)
    case Some(item) =>
      if !item.setRoot then r == Err(NotASet)
      else if b.items.None? then r == Err(FetchingItems)
      else
        match b.recipe(item.gameRef)
        case None => r == Err(FetchingRecipe)
        case Some(recipe) =>
          var ings := if recipe.Some? then recipe.value.ingredients else [];
          exists at: seq<nat> ::
            ArePartPositions(item, b.items.value, at) && DescribesParts(b, item, b.items.value, ings, at, r)
  }

  lemma PartIsPart(b: Backend, items: seq<Item>, ings: seq<RecipeIngredient>, id: string)
    requires LastItem(items, id).Some?
    ensures var r := PartFor(b, items, ings, id);
      if r.Ok? then IsPart(b, items, ings, id, r.value) else IsMissing(b, items, id, r.error)
  {
    LastItemIsLast(items, id);
    var j: nat :| j < |items| && items[j] == LastItem(items, id).value && IsLastListed(items, id, j);
    var detail := b.item(items[j].slug);
    if detail.Some? { LastCountIsLast(ings, detail.value.gameRef); }
  }

  lemma PartIsAvailable(b: Backend, items: seq<Item>, ings: seq<RecipeIngredient>, id: string, part: SetPart)
    requires IsPart(b, items, ings, id, part)
    ensures IsAvailable(b, items, id)
  {}

  lemma ResolvableIsListed(setID: string, items: seq<Item>, id: string)
    ensures Resolvable(setID, items, id) <==> id != setID && exists j: nat :: j < |items| && items[j].id == id
  {
    LastItemIsLast(items, id);
  }

  function WantedIds(item: ItemDetail, items: seq<Item>): seq<string> {
    Select((id: string) => Resolvable(item.id, items, id), item.setParts)
  }

  lemma WantedPositions(item: ItemDetail, items: seq<Item>) returns (at: seq<nat>)
    ensures ArePartPositions(item, items, at)
    ensures TakesFrom(item.setParts, at, WantedIds(item, items))
  {
    hide LastItem;
    at := SelectPositions((id: string) => Resolvable(item.id, items, id), item.setParts);
    forall k: nat | k < |item.setParts| {
      ResolvableIsListed(item.id, items, item.setParts[k]);
    }
  }

  lemma PartsAreDescribed(b: Backend, item: ItemDetail, items: seq<Item>, ings: seq<RecipeIngredient>, at: seq<nat>)
    requires ArePartPositions(item, items, at) && TakesFrom(item.setParts, at, WantedIds(item, items))
    ensures var r := PartsFor(b, item.id, items, ings, item.setParts);
      DescribesParts(b, item, items, ings, at,
        if r.Ok? then Ok(SetDescription(item.name, item.slug, r.value)) else Err(r.error))
  {
    hide PartFor, IsPart, IsMissing, IsAvailable, LastItem, PartsFor;
    var wanted, r := WantedIds(item, items), PartsFor(b, item.id, items, ings, item.setParts);
    PartsForOutcome(b, item.id, items, ings, item.setParts);
    assert forall id :: id in wanted ==> LastItem(items, id).Some?;
    forall k: nat | k < |wanted|
      ensures var part := PartFor(b, items, ings, wanted[k]);
        if part.Ok? then IsPart(b, items, ings, wanted[k], part.value) else IsMissing(b, items, wanted[k], part.error)
    {
      PartIsPart(b, items, ings, wanted[k]);
    }
    if r.Err? {
      var k: nat :| k < |wanted| && PartFor(b, items, ings, wanted[k]) == Err(r.error)
        && forall i :: 0 <= i < k ==> PartFor(b, items, ings, wanted[i]).Ok?;
      forall i | 0 <= i < k ensures IsAvailable(b, items, item.setParts[at[i]]) {
        PartIsAvailable(b, items, ings, wanted[i], PartFor(b, items, ings, wanted[i]).value);
      }
      assert wanted[k] == item.setParts[at[k]];
    }
  }

  /** The code's answer is a description. */
  lemma DescribeIsDescription(b: Backend, slug: string)
    ensures IsDescription(b, slug, Describe(b, slug))
  {
    hide PartsFor, DescribesParts, ArePartPositions, TakesFrom;
    var item := b.item(slug);
    if item.Some? && item.value.setRoot && b.items.Some? && b.recipe(item.value.gameRef).Some? {
      var at := WantedPositions(item.value, b.items.value);
      PartsAreDescribed(b, item.value, b.items.value, Ingredients(b.recipe(item.value.gameRef).value), at);
    }
  }

  /** At most one part, or one failure, belongs to the id. */
  ghost predicate OnlyOnePart(b: Backend, items: seq<Item>, ings: seq<RecipeIngredient>, id: string) {
    && (forall p, q :: IsPart(b, items, ings, id, p) && IsPart(b, items, ings, id, q) ==> p == q)
    && (forall d, e :: IsMissing(b, items, id, d) && IsMissing(b, items, id, e) ==> d == e)
    && (forall p :: IsPart(b, items, ings, id, p) ==> IsAvailable(b, items, id))
    && (forall e :: IsMissing(b, items, id, e) ==> !IsAvailable(b, items, id))
  }

  lemma PartIsUnique(b: Backend, items: seq<Item>, ings: seq<RecipeIngredient>, id: string)
    ensures OnlyOnePart(b, items, ings, id)
  {}

  lemma SamePositions(item: ItemDetail, items: seq<Item>, at: seq<nat>, to: seq<nat>)
    requires ArePartPositions(item, items, at) && ArePartPositions(item, items, to)
    ensures at == to
  {
    PositionsAreUnique(at, to);
  }

  lemma DescribedPartsAreUnique(b: Backend, item: ItemDetail, items: seq<Item>, ings: seq<RecipeIngredient>,
                                at: seq<nat>, r: Result<SetDescription, SetError>, s: Result<SetDescription, SetError>)
    requires ArePartPositions(item, items, at)
    requires DescribesParts(b, item, items, ings, at, r) && DescribesParts(b, item, items, ings, at, s)
    ensures r == s
  {
    hide IsPart, IsMissing, IsAvailable;
    forall k | 0 <= k < |at| ensures OnlyOnePart(b, items, ings, item.setParts[at[k]]) {
      PartIsUnique(b, items, ings, item.setParts[at[k]]);
    }
    if r.Ok? && s.Ok? { assert r.value.parts == s.value.parts; }
  }

  /** Nothing else is: the answers of the services determine the description. */
  lemma DescriptionIsUnique(b: Backend, slug: string, r: Result<SetDescription, SetError>)
    requires IsDescription(b, slug, r)
    ensures r == Describe(b, slug)
  {
    DescribeIsDescription(b, slug);
    hide Describe, DescribesParts, ArePartPositions;
    var item := b.item(slug);
    if item.Some? && item.value.setRoot && b.items.Some? && b.recipe(item.value.gameRef).Some? {
      var items, recipe := b.items.value, b.recipe(item.value.gameRef).value;
      var ings := if recipe.Some? then recipe.value.ingredients else [];
      var s := Describe(b, slug);
      var at: seq<nat> :| ArePartPositions(item.value, items, at) && DescribesParts(b, item.value, items, ings, at, r);
      var to: seq<nat> :| ArePartPositions(item.value, items, to) && DescribesParts(b, item.value, items, ings, to, s);
      SamePositions(item.value, items, at, to);
      DescribedPartsAreUnique(b, item.value, items, ings, at, r, s);
    }
  }

  method IndexItems(items: seq<Item>) returns (byID: map<string, Item>)
    ensures forall id :: id in byID <==> LastItem(items, id).Some?
    ensures forall id :: id in byID ==> byID[id] == LastItem(items, id).value
  {
    byID := map[];
    for i := 0 to |items|
      invariant forall id :: id in byID <==> LastItem(items[..i], id).Some?
      invariant forall id :: id in byID ==> byID[id] == LastItem(items[..i], id).value
    {
      assert items[..i + 1][..i] == items[..i];
      byID := byID[items[i].id := items[i]];
    }
    assert items[..|items|] == items;
  }

  method IndexCounts(ingredients: seq<RecipeIngredient>) returns (countByGameRef: map<string, int>)
    ensures forall g :: g in countByGameRef <==> LastCount(ingredients, g).Some?
    ensures forall g :: g in countByGameRef ==> countByGameRef[g] == LastCount(ingredients, g).value
  {
    countByGameRef := map[];
    for i := 0 to |ingredients|
      invariant forall g :: g in countByGameRef <==> LastCount(ingredients[..i], g).Some?
      invariant forall g :: g in countByGameRef ==> countByGameRef[g] == LastCount(ingredients[..i], g).value
    {
      assert ingredients[..i + 1][..i] == ingredients[..i];
      countByGameRef := countByGameRef[ingredients[i].itemType := ingredients[i].itemCount];
    }
    assert ingredients[..|ingredients|] == ingredients;
  }

  method GetSetInfo(b: Backend, slug: string) returns (r: Result<SetDescription, SetError>)
    ensures r == Describe(b, slug) && IsDescription(b, slug, r)
  {
    DescribeIsDescription(b, slug);
    hide IsDescription;
    var found := b.item(slug);
    if found.None? { return Err(FetchingItem); }
    var item := found.value;
    if !item.setRoot { return Err(NotASet); }
    if b.items.None? { return Err(FetchingItems); }
    var byID := IndexItems(b.items.value);
    var recipe := b.recipe(item.gameRef);
    if recipe.None? { return Err(FetchingRecipe); }
    var countByGameRef: map<string, int> := map[];
    if recipe.value.Some? {
      countByGameRef := IndexCounts(recipe.value.value.ingredients);
    }
    ghost var items, ings := b.items.value, Ingredients(recipe.value);

    var parts: seq<SetPart>, ids := [], item.setParts;
    for i := 0 to |ids|
      invariant PartsFor(b, item.id, items, ings, ids[..i]) == Ok(parts)
    {
      var partID := ids[i];
      assert ids[..i + 1][..i] == ids[..i];
      if partID == item.id { continue; }
      if partID !in byID { continue; }
      var part := byID[partID];
      var detail := b.item(part.slug);
      if detail.None? {
        PartsForErrorSticks(b, item.id, items, ings, ids, i + 1);
        return Err(FetchingPart(part.slug));
      }
      var gameRef := detail.value.gameRef;
      var count := if gameRef in countByGameRef then countByGameRef[gameRef] else 0;
      if count == 0 {
        count := 1;
      }
      parts := parts + [SetPart(part.name, part.slug, count)];
    }
    assert ids[..|ids|] == ids;
    return Ok(SetDescription(item.name, item.slug, parts));
  }
}
