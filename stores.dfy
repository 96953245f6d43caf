/** Store creation (`POST /api/stores`): the signed-in caller creates a
    store with the name given in the JSON body and becomes its owner. */
module StoresRoute {

  import opened Js
  import opened Db

  /** What the checks decide before anything is written. */
  datatype Decision = Reject(status: nat) | Insert(name: string, userId: UserId)

  /** The route's response: an error status, or 200 with the new store. */
  datatype StoreResponse = Failed(status: nat) | Created(store: Store)

  /** `!userId` fails: no caller, or an empty id. */
  predicate Authenticated(caller: Option<UserId>)
  {
    caller.Some? && caller.value != ""
  }

  /** The parsed body can be destructured: `const { name } = null` throws. */
  predicate Destructurable(body: Option<Json>)
  {
    body.Some? && body.value != JNull
  }

  /** `const { name } = body` on a non-null JSON value; `None` is `undefined`
      (every non-object has no `name` property). */
  function NameOf(body: Json): (name: Option<Json>)
    ensures name.Some? <==> body.JObj? && "name" in body.fields
    ensures name.Some? ==> name.value == body.fields["name"]
  {
    match body
    case JObj(fields) => if "name" in fields then Some(fields["name"]) else None
    case _ => None
  }

  /** The checks of the handler, in source order.  `body` is the result of
      `request.json()`, `None` when the body is not JSON.  The request is
      parsed before the caller is checked, the caller before the name, and
      the insert itself rejects a name that is not a string. */
  function Decide(caller: Option<UserId>, body: Option<Json>): (d: Decision)
    ensures !Destructurable(body) ==> d == Reject(500)
    ensures Destructurable(body) && !Authenticated(caller) ==> d == Reject(401)
    ensures Destructurable(body) && Authenticated(caller) && !Truthy(NameOf(body.value)) ==>
              d == Reject(400)
    ensures Destructurable(body) && Authenticated(caller) && Truthy(NameOf(body.value)) &&
              !NameOf(body.value).value.JStr? ==>
              d == Reject(500)
    ensures d.Insert? <==>
              Destructurable(body) && Authenticated(caller) &&
              NameOf(body.value).Some? && NameOf(body.value).value.JStr? &&
              NameOf(body.value).value.s != ""
    ensures d.Insert? ==> caller == Some(d.userId) && NameOf(body.value) == Some(JStr(d.name))
    ensures d.Reject? ==> d.status in {400, 401, 500}
  {
    if !Destructurable(body) then Reject(500)
    else if !Authenticated(caller) then Reject(401)
    else
      var name := NameOf(body.value);
      if !Truthy(name) then Reject(400)
      else if !name.value.JStr? then Reject(500)
      else Insert(name.value.s, caller.value)
  }

  /** With neither a caller nor a name, the caller check wins. */
  lemma CallerCheckedBeforeName(body: Json)
    requires body != JNull && !Truthy(NameOf(body))
    ensures Decide(None, Some(body)) == Reject(401)
  {
  }

  /** A body that does not parse fails with 500 even without a caller,
      because parsing comes before the caller check. */
  lemma MalformedBodyBeforeCaller()
    ensures Decide(None, None) == Reject(500)
  {
  }

  /** The route handler.  `caller` is what the identity provider resolves,
      `body` the parsed request body, and `insertFails` says whether the
      database throws on the insert. */
  method Post(db: Database, caller: Option<UserId>, body: Option<Json>, insertFails: bool)
    returns (res: StoreResponse)
    requires db.Valid()
    modifies db`stores, db`nextStoreId
    ensures db.Valid()
    ensures res.Created? <==> Decide(caller, body).Insert? && !insertFails
    ensures res.Failed? ==> db.stores == old(db.stores)
    ensures res.Failed? ==>
              res.status == if Decide(caller, body).Reject? then Decide(caller, body).status else 500
    ensures res.Created? ==>
              && res.store.name == Decide(caller, body).name
              && res.store.userId == Decide(caller, body).userId
              && res.store.id !in old(db.stores)
              && db.stores == old(db.stores)[res.store.id := res.store]
  {
    var d := Decide(caller, body);
    match d
    case Reject(status) =>
      return Failed(status);
    case Insert(name, userId) =>
      if insertFails {
        return Failed(500);
      }
      var store := db.CreateStore(name, userId);
      return Created(store);
  }
}
