/**
 * The product list screen: the products shown for the selected category and search text,
 * and the favorites store behind the heart buttons and the favorites strip.
 */
module ProductList {
  import opened Wrappers
  import opened Seqs

  /**
   * A product from the list endpoint. `id` stands for the `UUID()` each decoded product gets;
   * the server does not send it.
   */
  datatype Product = Product(id: nat, image: string, price: real, productName: string, productType: string, tax: real)

  /** The category chip that shows every product. */
  const AllCategories := "All"

  /** `lowercased()` on one character, for the ASCII letters. */
  function LowerChar(c: char): (r: char) {
    if 'A' <= c <= 'Z' then (c as int + ('a' as int - 'A' as int)) as char else c
  }

  /** `lowercased()`: every character mapped, the length kept. */
  function Lower(s: string): (r: string) {
    seq(|s|, i requires 0 <= i < |s| => LowerChar(s[i]))
  }

  /** `String.contains(_:)`: `needle` starts at some position of `hay`. */
  predicate Contains(hay: string, needle: string)
    decreases |hay|
  {
    needle <= hay || (hay != [] && Contains(hay[1..], needle))
  }

  /** `needle` is the slice of `hay` that starts at `i`. */
  predicate OccursAt(hay: string, needle: string, i: nat) {
    i + |needle| <= |hay| && hay[i..i + |needle|] == needle
  }

  /** `Contains` holds exactly when `needle` occurs as a contiguous slice of `hay`. */
  lemma {:induction false} ContainsIffOccurs(hay: string, needle: string)
    ensures Contains(hay, needle) <==> exists i: nat :: OccursAt(hay, needle, i)
    decreases |hay|
  {
    if hay != [] {
      ContainsIffOccurs(hay[1..], needle);
      if Contains(hay[1..], needle) {
        var i: nat :| OccursAt(hay[1..], needle, i);
        assert hay[i + 1..i + 1 + |needle|] == hay[1..][i..i + |needle|];
        assert OccursAt(hay, needle, i + 1);
      }
      if needle <= hay {
        assert OccursAt(hay, needle, 0);
      }
      if exists i: nat :: OccursAt(hay, needle, i) {
        var i: nat :| OccursAt(hay, needle, i);
        if i == 0 {
          assert needle <= hay;
        } else {
          assert hay[1..][i - 1..i - 1 + |needle|] == hay[i..i + |needle|];
          assert OccursAt(hay[1..], needle, i - 1);
        }
      }
    } else {
      if needle == [] {
        assert OccursAt(hay, needle, 0);
      }
    }
  }

  /** The category filter: every product under "All", otherwise a case-insensitive match. */
  predicate InCategory(p: Product, category: string) {
    category == AllCategories || Lower(p.productType) == Lower(category)
  }

  /** The search filter: every product for an empty search, otherwise a case-insensitive substring. */
  predicate MatchesSearch(p: Product, searchText: string) {
    searchText == "" || Contains(Lower(p.productName), Lower(searchText))
  }

  /** A product is shown when it passes both filters. */
  predicate Shown(p: Product, category: string, searchText: string) {
    InCategory(p, category) && MatchesSearch(p, searchText)
  }

  /** The closure of the category filter. */
  function TypeIs(category: string): (r: Product -> bool) {
    (p: Product) => Lower(p.productType) == Lower(category)
  }

  /** The closure of the search filter. */
  function NameContains(searchText: string): (r: Product -> bool) {
    (p: Product) => Contains(Lower(p.productName), Lower(searchText))
  }

  /** `Shown` as a closure. */
  function ShownBy(category: string, searchText: string): (r: Product -> bool) {
    (p: Product) => Shown(p, category, searchText)
  }

  /** `filteredProducts`: the category filter, then the search filter, each when it applies. */
  function FilteredProducts(products: seq<Product>, category: string, searchText: string): (r: seq<Product>) {
    var byCategory := if category != AllCategories then Filter(products, TypeIs(category)) else products;
    if searchText != "" then Filter(byCategory, NameContains(searchText)) else byCategory
  }

  /** The two filters in sequence are one filter by `Shown`. */
  lemma FilteredIsOneFilter(products: seq<Product>, category: string, searchText: string)
    ensures FilteredProducts(products, category, searchText) == Filter(products, ShownBy(category, searchText))
  {
    var shown := ShownBy(category, searchText);
    var byType := TypeIs(category);
    var byName := NameContains(searchText);
    if category != AllCategories && searchText != "" {
      FilterFilter(products, byType, byName, shown);
    } else if category != AllCategories {
      FilterSame(products, byType, shown);
    } else if searchText != "" {
      FilterSame(products, byName, shown);
    } else {
      FilterAll(products, shown);
    }
  }

  /** With "All" and an empty search, the list is shown unchanged. */
  lemma AllWithoutSearchIsIdentity(products: seq<Product>)
    ensures FilteredProducts(products, AllCategories, "") == products
  {
  }

  /**
   * A product is shown exactly when it is in the list, its type matches the category (unless
   * "All"), and its name contains the search text (unless empty), all compared lowercased.
   */
  lemma FilteredMembers(products: seq<Product>, category: string, searchText: string)
    ensures forall p :: p in FilteredProducts(products, category, searchText) <==>
      p in products
      && (category != AllCategories ==> Lower(p.productType) == Lower(category))
      && (searchText != "" ==> exists i: nat :: OccursAt(Lower(p.productName), Lower(searchText), i))
  {
    var shown := ShownBy(category, searchText);
    var result := FilteredProducts(products, category, searchText);
    FilteredIsOneFilter(products, category, searchText);
    FilterMembers(products, shown);
    forall p: Product
      ensures p in result <==>
        p in products
        && (category != AllCategories ==> Lower(p.productType) == Lower(category))
        && (searchText != "" ==> exists i: nat :: OccursAt(Lower(p.productName), Lower(searchText), i))
    {
      assert p in result <==> p in products && Shown(p, category, searchText);
      ShownIff(p, category, searchText);
    }
  }

  /** `Shown`, with the substring test written as an occurrence. */
  lemma ShownIff(p: Product, category: string, searchText: string)
    ensures Shown(p, category, searchText) <==>
      (category != AllCategories ==> Lower(p.productType) == Lower(category))
      && (searchText != "" ==> exists i: nat :: OccursAt(Lower(p.productName), Lower(searchText), i))
  {
    ContainsIffOccurs(Lower(p.productName), Lower(searchText));
  }

  /** The shown products keep the list's order: they are a subsequence of it. */
  lemma FilteredIsSubsequence(products: seq<Product>, category: string, searchText: string)
    ensures IsSubsequence(FilteredProducts(products, category, searchText), products)
  {
    FilteredIsOneFilter(products, category, searchText);
    FilterIsSubsequence(products, ShownBy(category, searchText));
  }

  /** Filtering the shown products again with the same category and search changes nothing. */
  lemma FilteredIdempotent(products: seq<Product>, category: string, searchText: string)
    ensures FilteredProducts(FilteredProducts(products, category, searchText), category, searchText)
         == FilteredProducts(products, category, searchText)
  {
    var shown := ShownBy(category, searchText);
    var once := FilteredProducts(products, category, searchText);
    FilteredIsOneFilter(products, category, searchText);
    FilteredIsOneFilter(once, category, searchText);
    FilterFilter(products, shown, shown, shown);
  }

  /**
   * A stored favorite (a `FavoriteProduct` object). `objectId` is the object's identity in the
   * store; the other fields are its attributes.
   */
  datatype Favorite = Favorite(
    objectId: nat,
    id: Option<nat>,
    name: Option<string>,
    price: real,
    image: Option<string>,
    productType: Option<string>,
    isFavourite: bool,
    tax: real)

  /** The position of the first favorite whose `id` is `id`, as `first(where:)` finds it. */
  function FirstWithId(favorites: seq<Favorite>, id: nat): (r: Option<nat>)
    ensures r.Some? ==> r.value < |favorites| && favorites[r.value].id == Some(id)
    ensures r.Some? ==> forall k :: 0 <= k < r.value ==> favorites[k].id != Some(id)
    ensures r.None? <==> forall k :: 0 <= k < |favorites| ==> favorites[k].id != Some(id)
  {
    if favorites == [] then None
    else if favorites[0].id == Some(id) then Some(0)
    else match FirstWithId(favorites[1..], id)
      case None => None
      case Some(k) => Some(k + 1)
  }

  /** No two favorites share a product id. */
  predicate UniqueIds(favorites: seq<Favorite>) {
    forall i, j :: 0 <= i < j < |favorites| && favorites[i].id.Some? ==> favorites[i].id != favorites[j].id
  }

  /** The favorite `toggleFavorite` creates for `p`; `tax` keeps its default of 0. */
  function NewFavorite(objectId: nat, p: Product): (f: Favorite)
    ensures f.id == Some(p.id) && f.isFavourite
  {
    Favorite(objectId, Some(p.id), Some(p.productName), p.price, Some(p.image), Some(p.productType), true, 0.0)
  }

  /** Each stored object has its own identity. */
  predicate DistinctObjects(favorites: seq<Favorite>) {
    forall i, j :: 0 <= i < j < |favorites| ==> favorites[i].objectId != favorites[j].objectId
  }

  /** An identity larger than that of every object in `favorites`. */
  function FreshObjectId(favorites: seq<Favorite>): (r: nat)
    ensures forall k :: 0 <= k < |favorites| ==> favorites[k].objectId < r
  {
    if favorites == [] then 0
    else
      var rest := FreshObjectId(favorites[1..]);
      if favorites[0].objectId < rest then rest else favorites[0].objectId + 1
  }

  /** Keeps every favorite but the object `objectId`. */
  function OtherThan(objectId: nat): (r: Favorite -> bool) {
    (g: Favorite) => g.objectId != objectId
  }

  /**
   * The position of the object `objectId` among `favorites`, or `|favorites|` when it is not
   * there: how the store finds the object that `delete` names.
   */
  method IndexOfObject(favorites: seq<Favorite>, objectId: nat) returns (i: nat)
    ensures i <= |favorites|
    ensures i < |favorites| ==> favorites[i].objectId == objectId
    ensures forall k :: 0 <= k < i ==> favorites[k].objectId != objectId
  {
    i := 0;
    while i < |favorites| && favorites[i].objectId != objectId
      invariant 0 <= i <= |favorites|
      invariant forall k :: 0 <= k < i ==> favorites[k].objectId != objectId
    {
      i := i + 1;
    }
  }

  /** The favorites store, as the list screen sees it through its fetch request. */
  class FavoriteStore {
    var favorites: seq<Favorite>
    var nextObjectId: nat

    /** Every object has its own identity, and new identities are still free. */
    ghost predicate Valid()
      reads this
    {
      DistinctObjects(favorites)
      && forall k :: 0 <= k < |favorites| ==> favorites[k].objectId < nextObjectId
    }

    /** The store as the fetch request loads it: the persisted favorites `stored`. */
    constructor (stored: seq<Favorite>)
      requires DistinctObjects(stored)
      ensures Valid() && favorites == stored
    {
      favorites := stored;
      nextObjectId := FreshObjectId(stored);
    }

    /** `isFavorite`: some stored favorite carries `p`'s id. */
    function IsFavorite(p: Product): (r: bool)
      reads this
      ensures r <==> exists f :: f in favorites && f.id == Some(p.id)
    {
      FirstWithId(favorites, p.id).Some?
    }

    /**
     * `toggleFavorite`: removes the first favorite with `p`'s id if there is one, and
     * otherwise adds a new favorite made from `p`.
     */
    method ToggleFavorite(p: Product)
      requires Valid()
      modifies this
      ensures Valid()
      ensures old(IsFavorite(p)) ==>
        favorites == RemoveAt(old(favorites), FirstWithId(old(favorites), p.id).value)
        && nextObjectId == old(nextObjectId)
      ensures !old(IsFavorite(p)) ==>
        favorites == old(favorites) + [NewFavorite(old(nextObjectId), p)]
        && nextObjectId == old(nextObjectId) + 1 && IsFavorite(p)
      ensures UniqueIds(old(favorites)) ==> UniqueIds(favorites) && IsFavorite(p) == !old(IsFavorite(p))
      ensures forall q: Product :: q.id != p.id ==> IsFavorite(q) == old(IsFavorite(q))
    {
      var found := FirstWithId(favorites, p.id);
      if found.Some? {
        favorites := RemoveAt(favorites, found.value);
      } else {
        favorites := favorites + [NewFavorite(nextObjectId, p)];
        nextObjectId := nextObjectId + 1;
      }
      forall q: Product | q.id != p.id
        ensures IsFavorite(q) == old(IsFavorite(q))
      {
        if old(IsFavorite(q)) {
          var f :| f in old(favorites) && f.id == Some(q.id);
          assert f in favorites;
        }
      }
    }

    /**
     * `deleteFavoriteProduct`: deletes the object `f` from the store. Every other favorite
     * stays, in its order.
     */
    method DeleteFavoriteProduct(f: Favorite)
      requires Valid()
      modifies this`favorites
      ensures Valid()
      ensures favorites == Filter(old(favorites), OtherThan(f.objectId))
      ensures forall g :: g in favorites <==> g in old(favorites) && g.objectId != f.objectId
    {
      var i := IndexOfObject(favorites, f.objectId);
      if i < |favorites| {
        FilterDropsOne(favorites, OtherThan(f.objectId), i);
        favorites := RemoveAt(favorites, i);
      } else {
        FilterAll(favorites, OtherThan(f.objectId));
      }
      FilterMembers(old(favorites), OtherThan(f.objectId));
    }
  }
}
