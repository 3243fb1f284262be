/**
 * The in-memory category store: one table from category id to category, with
 * the same writes as the task store and a case-insensitive lookup by name.
 */
module InMemoryCategories {
  import opened Domain
  import opened Text
  import opened Scans

  /** The id a category is filed under. */
  function CategoryKey(c: Category): (r: Guid)
    ensures r == c.id
  {
    c.id
  }

  /** Some stored category carries `name`, ignoring case. */
  ghost predicate NameTaken(store: map<Guid, Category>, name: string) {
    exists id :: id in store && SameName(store[id].name, name)
  }

  class InMemoryCategoryRepository {
    var store: map<Guid, Category>

    ghost predicate Valid()
      reads this
    {
      Keyed(store, CategoryKey)
    }

    constructor ()
      ensures Valid() && store == map[]
    {
      store := map[];
    }

    /** `GetByIdAsync`: the category filed under `id`, or none. */
    method GetById(id: Guid) returns (r: Option<Category>)
      requires Valid()
      ensures r.Some? <==> id in store
      ensures r.Some? ==> r.value == store[id] && r.value.id == id
    {
      if id in store {
        r := Some(store[id]);
      } else {
        r := Option.None;
      }
    }

    /** `GetAllAsync`: every stored category, once each; empty for an empty store. */
    method GetAll() returns (r: seq<Category>)
      requires Valid()
      ensures forall c :: c in r <==> c.id in store && store[c.id] == c
      ensures DistinctKeys(r, CategoryKey)
      ensures |r| == |store|
    {
      var all := (c: Category) => true;
      r := Scan(store, CategoryKey, all);
      ListsSize(r, store, CategoryKey, all);
      assert Matching(store, all) == store.Keys;
    }

    /**
     * `GetByNameAsync`: a stored category whose name equals `name` ignoring
     * case, or none when no stored name does.
     */
    method GetByName(name: string) returns (r: Option<Category>)
      requires Valid()
      ensures r.Some? ==> r.value.id in store && store[r.value.id] == r.value && SameName(r.value.name, name)
      ensures r.None? <==> !NameTaken(store, name)
    {
      var pending := store.Keys;
      while pending != {}
        invariant pending <= store.Keys
        invariant forall id :: id in store.Keys - pending ==> !SameName(store[id].name, name)
        decreases pending
      {
        var id :| id in pending;
        if SameName(store[id].name, name) {
          return Some(store[id]);
        }
        pending := pending - {id};
      }
      return Option.None;
    }

    /** `AddAsync`: files the category under its id, overwriting any entry already there, and returns it. */
    method Add(category: Category) returns (r: Category)
      requires Valid()
      modifies this
      ensures Valid()
      ensures r == category
      ensures store == old(store)[category.id := category]
    {
      store := store[category.id := category];
      r := category;
    }

    /** `UpdateAsync`: replaces the entry for `category.id` only when there is one. */
    method Update(category: Category) returns (r: Option<Category>)
      requires Valid()
      modifies this
      ensures Valid()
      ensures category.id in old(store) ==> r == Some(category) && store == old(store)[category.id := category]
      ensures category.id !in old(store) ==> r.None? && store == old(store)
    {
      if category.id in store {
        store := store[category.id := category];
        r := Some(category);
      } else {
        r := Option.None;
      }
    }

    /** `DeleteAsync`: removes the entry for `id`; true exactly when there was one. */
    method Delete(id: Guid) returns (removed: bool)
      requires Valid()
      modifies this
      ensures Valid()
      ensures removed == (id in old(store))
      ensures store == old(store) - {id}
    {
      removed := id in store;
      store := store - {id};
    }
  }
}
