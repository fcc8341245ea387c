/** The JPA repositories as in-memory tables. */
module Repository {
  import opened Domain

  predicate Distinct(s: seq<int>) {
    forall i, j :: 0 <= i < j < |s| ==> s[i] != s[j]
  }

  /** The rows listed under the keys, in the order of the keys. */
  function Project<T>(rows: map<int, T>, keys: seq<int>): (r: seq<T>)
    requires forall i :: 0 <= i < |keys| ==> keys[i] in rows
    ensures |r| == |keys|
    ensures forall i :: 0 <= i < |keys| ==> r[i] == rows[keys[i]]
  {
    if keys == [] then [] else [rows[keys[0]]] + Project(rows, keys[1..])
  }

  /** One table: the rows by id, a listing order over the ids and the next
      identity the database will generate. findAll has no ORDER BY, so its
      order is unspecified; the model fixes it as insertion order. */
  class Table<T> {
    var rows: map<int, T>
    var order: seq<int>
    var nextId: int

    ghost predicate Valid()
      reads this
    {
      && Distinct(order)
      && (forall i :: 0 <= i < |order| ==> order[i] in rows)
      && (forall k :: k in rows ==> k in order && k < nextId)
    }

    constructor ()
      ensures Valid()
      ensures rows == map[] && order == [] && nextId == 1
    {
      rows := map[];
      order := [];
      nextId := 1;
    }

    /** findAll(): every row exactly once, in the model's listing order. */
    function FindAll(): (r: seq<T>)
      reads this
      requires Valid()
      ensures |r| == |order|
      ensures forall i :: 0 <= i < |order| ==> r[i] == rows[order[i]]
    {
      Project(rows, order)
    }

    /** Every stored row is listed by findAll. */
    lemma ListedByFindAll(k: int)
      requires Valid() && k in rows
      ensures rows[k] in FindAll()
    {
      var i :| 0 <= i < |order| && order[i] == k;
      assert FindAll()[i] == rows[k];
    }

    /** Everything findAll lists is a stored row. */
    lemma FindAllIsStored(x: T)
      requires Valid() && x in FindAll()
      ensures exists k :: k in rows && rows[k] == x
    {
      var i :| 0 <= i < |FindAll()| && FindAll()[i] == x;
      var k := order[i];
      assert k in rows && rows[k] == x;
    }

    /** save() of a new entity: the row is stored under the generated id. */
    method Insert(row: T) returns (id: int)
      requires Valid()
      modifies this
      ensures Valid()
      ensures id == old(nextId) && id !in old(rows)
      ensures rows == old(rows)[id := row]
      ensures order == old(order) + [id]
      ensures nextId == old(nextId) + 1
    {
      id := nextId;
      rows := rows[id := row];
      order := order + [id];
      nextId := nextId + 1;
    }

    /** save() of an entity that is already stored: its row is replaced. */
    method Update(id: int, row: T)
      requires Valid() && id in rows
      modifies this
      ensures Valid()
      ensures rows == old(rows)[id := row]
      ensures order == old(order) && nextId == old(nextId)
    {
      rows := rows[id := row];
    }
  }

  /** CarRepository.findById: the table hides soft-deleted cars. */
  function FindCar(rows: map<int, Car>, id: int): (r: Option<Car>)
    ensures r.Some? <==> id in rows && !rows[id].isDeleted
    ensures r.Some? ==> r.value == rows[id]
  {
    if id in rows && !rows[id].isDeleted then Some(rows[id]) else None
  }
}
