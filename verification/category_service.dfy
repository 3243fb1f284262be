/**
 * The category service: name validation and name uniqueness on top of the
 * category store. It is a read-check-write sequence against the store; the
 * check and the write are not atomic, which only matters to concurrent
 * callers (see README).
 */
module CategoryServices {
  import opened Domain
  import opened Text
  import opened Scans
  import opened InMemoryCategories

  /** No two stored categories share a name, ignoring case. */
  ghost predicate UniqueNames(store: map<Guid, Category>) {
    forall a, b :: a in store && b in store && SameName(store[a].name, store[b].name) ==> a == b
  }

  /** A category other than `id` already carries `name`, ignoring case. */
  ghost predicate TakenByOther(store: map<Guid, Category>, id: Guid, name: string) {
    exists other :: other in store && other != id && SameName(store[other].name, name)
  }

  /** The conflict rule of an update: the name lookup found a category, and it is not the one being updated. */
  predicate Conflicts(found: Option<Category>, id: Guid) {
    found.Some? && found.value.id != id
  }

  /**
   * When names are unique and the category being updated already carries the
   * new name, no other category does: a name lookup that finds the category
   * itself is no conflict.
   */
  lemma SelfMatchExcludesOthers(store: map<Guid, Category>, id: Guid, name: string)
    requires UniqueNames(store)
    requires id in store && SameName(store[id].name, name)
    ensures !TakenByOther(store, id, name)
  {
    if other :| other in store && other != id && SameName(store[other].name, name) {
      SameNameIsEquivalence(store[other].name, name, store[id].name);
      SameNameIsEquivalence(name, store[id].name, name);
      assert SameName(store[other].name, store[id].name);
    }
  }

  /** With unique names, a lookup hit for `name` that is not `id` exists exactly when `name` is taken by another category. */
  lemma ConflictsExactly(store: map<Guid, Category>, id: Guid, name: string, found: Option<Category>)
    requires UniqueNames(store) && id in store
    requires found.Some? ==> found.value.id in store && store[found.value.id] == found.value && SameName(found.value.name, name)
    requires found.None? <==> !NameTaken(store, name)
    ensures Conflicts(found, id) <==> TakenByOther(store, id, name)
  {
    if found.Some? && found.value.id == id {
      SelfMatchExcludesOthers(store, id, name);
    }
  }

  /** Inserting a category under a new id with a name nobody holds keeps names unique. */
  lemma InsertKeepsNamesUnique(store: map<Guid, Category>, c: Category)
    requires UniqueNames(store)
    requires c.id !in store && !NameTaken(store, c.name)
    ensures UniqueNames(store[c.id := c])
  {
  }

  /** Renaming a category to a name no other category holds keeps names unique. */
  lemma RenameKeepsNamesUnique(store: map<Guid, Category>, c: Category)
    requires UniqueNames(store)
    requires c.id in store && !TakenByOther(store, c.id, c.name)
    ensures UniqueNames(store[c.id := c])
  {
  }

  class CategoryService {
    const categories: InMemoryCategoryRepository

    ghost predicate Valid()
      reads this, categories
    {
      categories.Valid()
    }

    constructor (categoryRepository: InMemoryCategoryRepository)
      requires categoryRepository.Valid()
      ensures Valid() && categories == categoryRepository
    {
      categories := categoryRepository;
    }

    /** `GetByIdAsync`: the stored category with this id, or none. */
    method GetById(id: Guid) returns (r: Option<Category>)
      requires Valid()
      ensures r.Some? <==> id in categories.store
      ensures r.Some? ==> r.value == categories.store[id]
    {
      r := categories.GetById(id);
    }

    /** `GetAllAsync`: every stored category, once each. */
    method GetAll() returns (r: seq<Category>)
      requires Valid()
      ensures forall c :: c in r <==> c.id in categories.store && categories.store[c.id] == c
      ensures |r| == |categories.store|
    {
      r := categories.GetAll();
    }

    /**
     * `CreateAsync`: a blank name is an `ArgumentException`, a name some
     * category already holds (ignoring case) an `InvalidOperationException`;
     * otherwise one new category is stored under the fresh id and returned.
     * `freshId` stands for `Guid.NewGuid()`.
     */
    method Create(request: CategoryRequest, freshId: Guid) returns (r: Result<Category>)
      requires Valid()
      requires freshId != EmptyGuid && freshId !in categories.store
      modifies categories
      ensures Valid()
      ensures IsBlank(request.name) ==> r == Failure(ArgumentException)
      ensures !IsBlank(request.name) && NameTaken(old(categories.store), request.name) ==>
        r == Failure(InvalidOperationException)
      ensures !IsBlank(request.name) && !NameTaken(old(categories.store), request.name) ==>
        && r == Success(Category(freshId, request.name, request.description))
        && categories.store == old(categories.store)[freshId := r.value]
      ensures r.Failure? ==> categories.store == old(categories.store)
      ensures UniqueNames(old(categories.store)) ==> UniqueNames(categories.store)
    {
      if IsBlank(request.name) {
        return Failure(ArgumentException);
      }
      var existing := categories.GetByName(request.name);
      if existing.Some? {
        return Failure(InvalidOperationException);
      }
      var category := Category(freshId, request.name, request.description);
      if UniqueNames(categories.store) {
        InsertKeepsNamesUnique(categories.store, category);
      }
      var added := categories.Add(category);
      return Success(added);
    }

    /**
     * `UpdateAsync`: none when no category has this id; otherwise a blank name
     * is an `ArgumentException` and a name held by a different category an
     * `InvalidOperationException`, while keeping the category's own name is
     * allowed. On success name and description are replaced and the updated
     * category is returned.
     */
    method Update(id: Guid, request: CategoryRequest) returns (r: Result<Option<Category>>)
      requires Valid()
      modifies categories
      ensures Valid()
      ensures id !in old(categories.store) ==> r == Success(Option.None)
      ensures id in old(categories.store) && IsBlank(request.name) ==> r == Failure(ArgumentException)
      ensures r == Failure(InvalidOperationException) ==> TakenByOther(old(categories.store), id, request.name)
      ensures id in old(categories.store) && !IsBlank(request.name) && UniqueNames(old(categories.store)) ==>
        (r == Failure(InvalidOperationException) <==> TakenByOther(old(categories.store), id, request.name))
      ensures r.Success? && r.value.Some? ==>
        && r.value.value == Category(id, request.name, request.description)
        && categories.store == old(categories.store)[id := r.value.value]
      ensures !(r.Success? && r.value.Some?) ==> categories.store == old(categories.store)
      ensures id in old(categories.store) && !IsBlank(request.name) ==>
        r == Failure(InvalidOperationException) || (r.Success? && r.value.Some?)
      ensures id in old(categories.store) && !IsBlank(request.name) &&
              !SameName(old(categories.store)[id].name, request.name) ==>
        (r == Failure(InvalidOperationException) <==> TakenByOther(old(categories.store), id, request.name))
      ensures (id in old(categories.store) && !IsBlank(request.name) &&
               !TakenByOther(old(categories.store), id, request.name)) ==> r.Success? && r.value.Some?
      ensures UniqueNames(old(categories.store)) ==> UniqueNames(categories.store)
    {
      var existing := categories.GetById(id);
      if existing.None? {
        return Success(Option.None);
      }
      if IsBlank(request.name) {
        return Failure(ArgumentException);
      }
      var found := categories.GetByName(request.name);
      if UniqueNames(categories.store) {
        ConflictsExactly(categories.store, id, request.name, found);
      }
      if Conflicts(found, id) {
        return Failure(InvalidOperationException);
      }
      var category := existing.value.(name := request.name, description := request.description);
      if UniqueNames(categories.store) {
        RenameKeepsNamesUnique(categories.store, category);
      }
      var saved := categories.Update(category);
      return Success(saved);
    }

    /** `DeleteAsync`: the store's found-and-removed answer. */
    method Delete(id: Guid) returns (removed: bool)
      requires Valid()
      modifies categories
      ensures Valid()
      ensures removed == (id in old(categories.store))
      ensures categories.store == old(categories.store) - {id}
      ensures UniqueNames(old(categories.store)) ==> UniqueNames(categories.store)
    {
      removed := categories.Delete(id);
    }
  }
}
