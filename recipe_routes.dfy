/**
 * The recipe REST routes: list and fetch (public), create, update and delete
 * (behind the authentication gate), over a record store keyed by id.
 */
module RecipeRoutes {
  import opened Wrappers
  import opened RecipeData
  import Text

  datatype Payload =
    | Message(text: string)
    | One(recipe: Recipe)
    | Many(recipes: seq<Recipe>)
    | Deleted(message: string, recipe: Recipe)
    | Unauthenticated  // whatever the gate answers; its body is not part of this model

  datatype Response = Response(status: int, payload: Payload)

  const AllFieldsRequired := "All fields are required"
  const NotFoundMessage := "Recipe not found"
  const InvalidIdMessage := "Invalid recipe ID"

  /** Every field is truthy (present and not empty). */
  predicate AllPresent(b: Body) {
    Truthy(b.title) && Truthy(b.description) && Truthy(b.ingredients) && Truthy(b.instructions)
  }

  /** The required-field check, then trimming of each field. */
  function Validate(b: Body): (r: Option<Fields>)
    ensures r.Some? <==> AllPresent(b)
    ensures r.Some? ==> r.value == Fields(Text.Trim(b.title.value), Text.Trim(b.description.value),
                                          Text.Trim(b.ingredients.value), Text.Trim(b.instructions.value))
  {
    if !AllPresent(b) then None
    else Some(Fields(Text.Trim(b.title.value), Text.Trim(b.description.value),
                     Text.Trim(b.ingredients.value), Text.Trim(b.instructions.value)))
  }

  /** A listing with the most recently created recipe first. */
  ghost predicate NewestFirst(rs: seq<Recipe>) {
    forall i, j :: 0 <= i < j < |rs| ==> rs[i].createdAt > rs[j].createdAt
  }

  /** `order` lists ids of `records` from oldest to newest. */
  ghost predicate CreationOrdered(records: map<string, Recipe>, order: seq<string>) {
    && (forall i :: 0 <= i < |order| ==> order[i] in records)
    && (forall i, j :: 0 <= i < j < |order| ==> records[order[i]].createdAt < records[order[j]].createdAt)
  }

  /** The records named by `order`, newest first. */
  function ListNewestFirst(records: map<string, Recipe>, order: seq<string>): (r: seq<Recipe>)
    requires CreationOrdered(records, order)
    ensures NewestFirst(r)
    ensures forall x :: x in r <==> exists i :: 0 <= i < |order| && records[order[i]] == x
  {
    var r := seq(|order|, i requires 0 <= i < |order| => records[order[|order| - 1 - i]]);
    assert forall i :: 0 <= i < |order| ==> records[order[i]] == r[|order| - 1 - i];
    r
  }

  /** `s` with every occurrence of `x` removed, order kept. */
  function Without(s: seq<string>, x: string): (r: seq<string>)
    ensures forall y :: y in r <==> y in s && y != x
  {
    if s == [] then []
    else (if s[0] == x then [] else [s[0]]) + Without(s[1..], x)
  }

  /** Removing a record and its id keeps the rest in creation order. */
  lemma {:induction false} WithoutKeepsOrder(records: map<string, Recipe>, order: seq<string>, x: string)
    requires CreationOrdered(records, order)
    ensures CreationOrdered(records - {x}, Without(order, x))
  {
    if order != [] {
      var rest := order[1..];
      assert CreationOrdered(records, rest) by {
        forall i, j | 0 <= i < j < |rest|
          ensures records[rest[i]].createdAt < records[rest[j]].createdAt
        {
          assert rest[i] == order[i + 1] && rest[j] == order[j + 1];
        }
      }
      WithoutKeepsOrder(records, rest, x);
      var w := Without(rest, x);
      if order[0] != x {
        var r := [order[0]] + w;
        assert Without(order, x) == r;
        forall j | 0 < j < |r| ensures records[r[0]].createdAt < records[r[j]].createdAt {
          assert r[j] == w[j - 1];
          assert w[j - 1] in rest;
          var k :| 0 <= k < |rest| && rest[k] == w[j - 1];
          assert rest[k] == order[k + 1];
        }
      }
    }
  }

  /**
   * Each record is filed under its own valid id and stamped before `clock`;
   * `order` holds exactly the stored ids, oldest first.
   */
  ghost predicate StoreInvariant(records: map<string, Recipe>, order: seq<string>, clock: nat) {
    && (forall id :: id in records ==> records[id].id == id && IsValidId(id) && records[id].createdAt < clock)
    && (forall id :: id in records <==> id in order)
    && CreationOrdered(records, order)
  }

  /** Inserting a fresh record stamped with the clock keeps the invariant. */
  lemma InsertKeepsInvariant(records: map<string, Recipe>, order: seq<string>, clock: nat, rec: Recipe)
    requires StoreInvariant(records, order, clock)
    requires rec.id !in records && IsValidId(rec.id) && rec.createdAt == clock
    ensures StoreInvariant(records[rec.id := rec], order + [rec.id], clock + 1)
  {
    AppendKeepsOrder(records, order, rec);
  }

  /** Appending a record stamped later than every other keeps creation order. */
  lemma AppendKeepsOrder(records: map<string, Recipe>, order: seq<string>, rec: Recipe)
    requires CreationOrdered(records, order)
    requires rec.id !in records
    requires forall id :: id in records ==> records[id].createdAt < rec.createdAt
    ensures CreationOrdered(records[rec.id := rec], order + [rec.id])
  {
    var r2, o2 := records[rec.id := rec], order + [rec.id];
    forall i, j | 0 <= i < j < |o2| ensures r2[o2[i]].createdAt < r2[o2[j]].createdAt {
      assert o2[i] == order[i] && r2[o2[i]] == records[order[i]];
      if j < |order| {
        assert o2[j] == order[j] && r2[o2[j]] == records[order[j]];
      }
    }
  }

  /** Changing a record's fields but not its stamp keeps creation order. */
  lemma ReplaceKeepsOrder(records: map<string, Recipe>, order: seq<string>, id: string, rec: Recipe)
    requires CreationOrdered(records, order)
    requires id in records && rec.createdAt == records[id].createdAt
    ensures CreationOrdered(records[id := rec], order)
  {
    var r2 := records[id := rec];
    assert forall x :: x in records ==> r2[x].createdAt == records[x].createdAt;
  }

  datatype Request =
    | ListAll
    | GetOne(id: string)
    | CreateOne(body: Body)
    | UpdateOne(id: string, body: Body)
    | DeleteOne(id: string)

  /** Only the mutating routes are mounted behind the authentication gate. */
  predicate RequiresAuth(req: Request) {
    req.CreateOne? || req.UpdateOne? || req.DeleteOne?
  }

  const CollectionPath := "/recipes"
  const ItemPrefix := "/recipes/"

  /** The `:id` path parameter: one non-empty segment after the collection path. */
  function ItemId(path: string): (r: Option<string>)
    ensures r.Some? <==> ItemPrefix <= path && |path| > |ItemPrefix| && '/' !in path[|ItemPrefix|..]
    ensures r.Some? ==> path == ItemPrefix + r.value
  {
    if ItemPrefix <= path && |path| > |ItemPrefix| && '/' !in path[|ItemPrefix|..] then
      Some(path[|ItemPrefix|..])
    else None
  }

  /** The route a verb and a path (below `/api`) reach. */
  function ParseRoute(verb: string, path: string, body: Body): (r: Option<Request>)
    ensures r.Some? && r.value.ListAll? ==> verb == "GET" && path == CollectionPath
    ensures r.Some? && r.value.CreateOne? ==> verb == "POST" && path == CollectionPath && r.value.body == body
    ensures r.Some? && (r.value.GetOne? || r.value.UpdateOne? || r.value.DeleteOne?) ==>
              path == ItemPrefix + r.value.id && r.value.id != "" && '/' !in r.value.id
    ensures r.Some? ==> (RequiresAuth(r.value) <==> verb != "GET")
  {
    if path == CollectionPath then
      if verb == "GET" then Some(ListAll)
      else if verb == "POST" then Some(CreateOne(body))
      else None
    else
      match ItemId(path)
      case None => None
      case Some(id) =>
        if verb == "GET" then Some(GetOne(id))
        else if verb == "PUT" then Some(UpdateOne(id, body))
        else if verb == "DELETE" then Some(DeleteOne(id))
        else None
  }

  /**
   * The recipe collection. `order` remembers creation order (the `createdAt`
   * sort key) and `clock` is the next creation stamp.
   */
  class RecipeStore {
    var records: map<string, Recipe>
    var order: seq<string>
    var clock: nat

    ghost predicate Valid()
      reads this
    {
      StoreInvariant(records, order, clock)
    }

    constructor ()
      ensures Valid() && records == map[]
    {
      records, order, clock := map[], [], 0;
    }

    /** `GET /recipes`: every recipe, newest first. */
    ghost predicate ListReply(storeFault: bool, resp: Response)
      reads this
    {
      && (storeFault ==> resp == Response(500, Message("Error fetching recipes")))
      && (!storeFault ==> resp.status == 200 && resp.payload.Many?)
      && (!storeFault ==> NewestFirst(resp.payload.recipes))
      && (!storeFault ==> forall x :: x in resp.payload.recipes <==> x in records.Values)
    }

    method GetAll(storeFault: bool) returns (resp: Response)
      requires Valid()
      ensures ListReply(storeFault, resp)
    {
      if storeFault {
        return Response(500, Message("Error fetching recipes"));
      }
      var list := ListNewestFirst(records, order);
      forall x ensures x in list <==> x in records.Values {
        if x in records.Values {
          var id :| id in records && records[id] == x;
          var i :| 0 <= i < |order| && order[i] == id;
        }
      }
      resp := Response(200, Many(list));
    }

    /** `GET /recipes/:id`. */
    ghost predicate OneReply(id: string, storeFault: bool, resp: Response)
      reads this
    {
      && (!IsValidId(id) ==> resp == Response(404, Message(InvalidIdMessage)))
      && (IsValidId(id) && storeFault ==> resp == Response(500, Message("Error fetching recipe")))
      && (IsValidId(id) && !storeFault && id !in records ==> resp == Response(404, Message(NotFoundMessage)))
      && (IsValidId(id) && !storeFault && id in records ==> resp == Response(200, One(records[id])))
    }

    method GetOne(id: string, storeFault: bool) returns (resp: Response)
      requires Valid()
      ensures OneReply(id, storeFault, resp)
    {
      if !IsValidId(id) {
        return Response(404, Message(InvalidIdMessage));
      }
      if storeFault {
        return Response(500, Message("Error fetching recipe"));
      }
      if id !in records {
        return Response(404, Message(NotFoundMessage));
      }
      resp := Response(200, One(records[id]));
    }

    /**
     * `POST /recipes`. `newId` is the identifier the database assigns; the database
     * refusing the insert (an id already taken) falls into the same error path as a fault.
     */
    twostate predicate CreateReply(body: Body, newId: string, storeFault: bool, resp: Response)
      reads this
    {
      && (Validate(body).None? ==>
            resp == Response(400, Message(AllFieldsRequired)) && records == old(records) && order == old(order))
      && (Validate(body).Some? && (storeFault || newId in old(records) || !IsValidId(newId)) ==>
            resp == Response(500, Message("Error creating recipe")) && records == old(records) && order == old(order))
      && (Validate(body).Some? && !storeFault && newId !in old(records) && IsValidId(newId) ==>
            var f := Validate(body).value;
            var rec := Recipe(newId, f.title, f.description, f.ingredients, f.instructions, old(clock));
            && resp == Response(201, One(rec))
            && records == old(records)[newId := rec]
            && order == old(order) + [newId])
    }

    method Create(body: Body, newId: string, storeFault: bool) returns (resp: Response)
      requires Valid()
      modifies this
      ensures Valid()
      ensures CreateReply(body, newId, storeFault, resp)
    {
      var fields := Validate(body);
      if fields.None? {
        return Response(400, Message(AllFieldsRequired));
      }
      if storeFault || newId in records || !IsValidId(newId) {
        return Response(500, Message("Error creating recipe"));
      }
      var f := fields.value;
      var rec := Recipe(newId, f.title, f.description, f.ingredients, f.instructions, clock);
      InsertKeepsInvariant(records, order, clock, rec);
      records := records[newId := rec];
      order := order + [newId];
      clock := clock + 1;
      resp := Response(201, One(rec));
    }

    /** `PUT /recipes/:id`: the four fields are replaced by their trimmed values. */
    twostate predicate UpdateReply(id: string, body: Body, storeFault: bool, resp: Response)
      reads this
    {
      && order == old(order)
      && (Validate(body).None? ==> resp == Response(400, Message(AllFieldsRequired)) && records == old(records))
      && (Validate(body).Some? && !IsValidId(id) ==>
            resp == Response(404, Message(InvalidIdMessage)) && records == old(records))
      && (Validate(body).Some? && IsValidId(id) && storeFault ==>
            resp == Response(500, Message("Error updating recipe")) && records == old(records))
      && (Validate(body).Some? && IsValidId(id) && !storeFault && id !in old(records) ==>
            resp == Response(404, Message(NotFoundMessage)) && records == old(records))
      && (Validate(body).Some? && IsValidId(id) && !storeFault && id in old(records) ==>
            var f := Validate(body).value;
            var rec := old(records)[id].(title := f.title, description := f.description,
                                         ingredients := f.ingredients, instructions := f.instructions);
            && resp == Response(200, One(rec))
            && records == old(records)[id := rec])
    }

    method Update(id: string, body: Body, storeFault: bool) returns (resp: Response)
      requires Valid()
      modifies this
      ensures Valid()
      ensures UpdateReply(id, body, storeFault, resp)
    {
      var fields := Validate(body);
      if fields.None? {
        return Response(400, Message(AllFieldsRequired));
      }
      if !IsValidId(id) {
        return Response(404, Message(InvalidIdMessage));
      }
      if storeFault {
        return Response(500, Message("Error updating recipe"));
      }
      if id !in records {
        return Response(404, Message(NotFoundMessage));
      }
      var f := fields.value;
      var rec := records[id].(title := f.title, description := f.description,
                              ingredients := f.ingredients, instructions := f.instructions);
      ReplaceKeepsOrder(records, order, id, rec);
      records := records[id := rec];
      resp := Response(200, One(rec));
    }

    /** `DELETE /recipes/:id`: exactly that record goes. */
    twostate predicate DeleteReply(id: string, storeFault: bool, resp: Response)
      reads this
    {
      && (!IsValidId(id) ==> resp == Response(404, Message(InvalidIdMessage)) && records == old(records))
      && (IsValidId(id) && storeFault ==>
            resp == Response(500, Message("Error deleting recipe")) && records == old(records))
      && (IsValidId(id) && !storeFault && id !in old(records) ==>
            resp == Response(404, Message(NotFoundMessage)) && records == old(records))
      && (IsValidId(id) && !storeFault && id in old(records) ==>
            && resp == Response(200, Deleted("Recipe deleted successfully", old(records)[id]))
            && records == old(records) - {id})
    }

    method Delete(id: string, storeFault: bool) returns (resp: Response)
      requires Valid()
      modifies this
      ensures Valid()
      ensures DeleteReply(id, storeFault, resp)
    {
      if !IsValidId(id) {
        return Response(404, Message(InvalidIdMessage));
      }
      if storeFault {
        return Response(500, Message("Error deleting recipe"));
      }
      if id !in records {
        return Response(404, Message(NotFoundMessage));
      }
      var gone := records[id];
      WithoutKeepsOrder(records, order, id);
      records := records - {id};
      order := Without(order, id);
      resp := Response(200, Deleted("Recipe deleted successfully", gone));
    }

    /**
     * A request as the router delivers it: the gate (its verdict is `authorized`)
     * runs first on the mutating routes and stops a rejected request before its handler.
     */
    method Handle(req: Request, authorized: bool, newId: string, storeFault: bool) returns (resp: Response)
      requires Valid()
      modifies this
      ensures Valid()
      ensures RequiresAuth(req) && !authorized ==>
                resp == Response(401, Unauthenticated) && records == old(records) && order == old(order)
      ensures !RequiresAuth(req) ==> records == old(records) && resp.status != 401
      ensures resp.status == 201 ==> req.CreateOne? && authorized
      ensures (req.UpdateOne? || req.DeleteOne?) && records != old(records) ==> authorized && req.id in old(records)
      ensures req.ListAll? ==> ListReply(storeFault, resp)
      ensures req.GetOne? ==> OneReply(req.id, storeFault, resp)
      ensures req.CreateOne? && authorized ==> CreateReply(req.body, newId, storeFault, resp)
      ensures req.UpdateOne? && authorized ==> UpdateReply(req.id, req.body, storeFault, resp)
      ensures req.DeleteOne? && authorized ==> DeleteReply(req.id, storeFault, resp)
    {
      if RequiresAuth(req) && !authorized {
        return Response(401, Unauthenticated);
      }
      match req {
        case ListAll => resp := GetAll(storeFault);
        case GetOne(id) => resp := GetOne(id, storeFault);
        case CreateOne(body) => resp := Create(body, newId, storeFault);
        case UpdateOne(id, body) => resp := Update(id, body, storeFault);
        case DeleteOne(id) => resp := Delete(id, storeFault);
      }
    }
  }
}
