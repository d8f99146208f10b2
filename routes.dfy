/** The talker routes (index.js:22-34, 122-165): each runs its middleware
    chain, then its handler on the store, and answers. */
module Routes {
  import opened Types
  import opened Validation
  import opened TalkerStore

  const NotFound := "Pessoa palestrante não encontrada"

  /** The stored talk of a request whose `talk` got through the chain. */
  function TalkOf(f: TalkField): (t: Talk)
    requires f.watchedAt.Some? && f.rate.Some?
    ensures t.watchedAt == f.watchedAt.value && t.rate == f.rate.value
  {
    Talk(f.watchedAt.value, f.rate.value)
  }

  /** GET /talker: the whole file, in file order. The file always holds an
      array, so the branch for a falsy file never applies. */
  method GetTalkers(store: Store) returns (reply: Reply)
    ensures reply == Reply(200, Talkers(store.talkers))
  {
    var loaded := store.talkers;
    reply := Reply(200, Talkers(loaded));
  }

  /** GET /talker/:id: the first record with the id, or 404. */
  method GetTalkerById(store: Store, id: int) returns (reply: Reply)
    ensures reply.status == 200 || reply.status == 404
    ensures reply.status == 404 <==> forall i :: 0 <= i < |store.talkers| ==> store.talkers[i].id != id
    ensures reply.status == 404 ==> reply.payload == Message(NotFound)
    ensures reply.status == 200 ==>
              && reply.payload.OneTalker?
              && exists i :: 0 <= i < |store.talkers| && store.talkers[i] == reply.payload.talker &&
                   reply.payload.talker.id == id &&
                   forall j :: 0 <= j < i ==> store.talkers[j].id != id
  {
    var found := FindById(store.talkers, id);
    if found.None? {
      reply := Reply(404, Message(NotFound));
    } else {
      reply := Reply(200, OneTalker(found.value));
    }
  }

  /** POST /talker: the talker chain, then create. */
  method PostTalker(store: Store, req: Request) returns (reply: Reply)
    modifies store
    ensures !WellFormedTalkerRequest(req) ==>
              && !RunChain(TalkerChain(), req).Pass?
              && reply == Refusal(RunChain(TalkerChain(), req))
              && store.talkers == old(store.talkers)
    ensures WellFormedTalkerRequest(req) && old(store.talkers) == [] ==>
              reply == Reply(500, InternalError) && store.talkers == old(store.talkers)
    ensures WellFormedTalkerRequest(req) && old(store.talkers) != [] ==>
              var t := Talker(NextId(old(store.talkers)), req.body.name.value, req.body.age.value,
                              TalkOf(req.body.talk.value));
              && reply == Reply(201, OneTalker(t))
              && store.talkers == SortByIdDesc(old(store.talkers)) + [t]
    ensures UniqueIds(old(store.talkers)) ==> UniqueIds(store.talkers)
  {
    var c := RunChain(TalkerChain(), req);
    TalkerChainPassIff(req);
    if !c.Pass? {
      return Refusal(c);
    }
    var body := req.body;
    var created := store.Create(body.name.value, body.age.value, TalkOf(body.talk.value));
    if created.None? {
      return Reply(500, InternalError);
    }
    reply := Reply(201, OneTalker(created.value));
  }

  /** PUT /talker/:id: the talker chain, then replace (or add) the record. */
  method PutTalker(store: Store, id: int, req: Request) returns (reply: Reply)
    modifies store
    ensures !WellFormedTalkerRequest(req) ==>
              && !RunChain(TalkerChain(), req).Pass?
              && reply == Refusal(RunChain(TalkerChain(), req))
              && store.talkers == old(store.talkers)
    ensures WellFormedTalkerRequest(req) ==>
              var t := Talker(id, req.body.name.value, req.body.age.value, TalkOf(req.body.talk.value));
              && reply == Reply(200, OneTalker(t))
              && store.talkers == Without(old(store.talkers), id) + [t]
              && FindById(store.talkers, id) == Some(t)
    ensures UniqueIds(old(store.talkers)) ==> UniqueIds(store.talkers)
  {
    var c := RunChain(TalkerChain(), req);
    TalkerChainPassIff(req);
    if !c.Pass? {
      return Refusal(c);
    }
    var body := req.body;
    var t := store.Update(id, body.name.value, body.age.value, TalkOf(body.talk.value));
    FindByIdIsFirstWithId(store.talkers, id);
    reply := Reply(200, OneTalker(t));
  }

  /** DELETE /talker/:id: the token check, then drop every record with the id;
      204 whether or not one was there. */
  method DeleteTalker(store: Store, id: int, req: Request) returns (reply: Reply)
    modifies store
    ensures !AuthorizationToken(req).Pass? ==>
              reply == Refusal(AuthorizationToken(req)) && store.talkers == old(store.talkers)
    ensures AuthorizationToken(req).Pass? ==>
              && reply == Reply(204, NoBody)
              && store.talkers == Without(old(store.talkers), id)
              && FindById(store.talkers, id).None?
    ensures UniqueIds(old(store.talkers)) ==> UniqueIds(store.talkers)
  {
    var c := RunChain(DeleteChain(), req);
    DeleteChainIsAuthorization(req);
    if !c.Pass? {
      return Refusal(c);
    }
    store.Delete(id);
    FindByIdIsFirstWithId(store.talkers, id);
    reply := Reply(204, NoBody);
  }

  /** What a client sees across requests: after PUT /talker/:id, GET
      /talker/:id answers the replacement; after DELETE /talker/:id it answers
      404. */
  method PutThenGet(store: Store, id: int, req: Request) returns (put: Reply, get: Reply)
    requires WellFormedTalkerRequest(req)
    modifies store
    ensures put.status == 200 && get == Reply(200, put.payload)
  {
    put := PutTalker(store, id, req);
    get := GetTalkerById(store, id);
    FindByIdIsFirstWithId(store.talkers, id);
  }

  method DeleteThenGet(store: Store, id: int, req: Request) returns (del: Reply, get: Reply)
    requires AuthorizationToken(req).Pass?
    modifies store
    ensures del == Reply(204, NoBody) && get == Reply(404, Message(NotFound))
  {
    del := DeleteTalker(store, id, req);
    get := GetTalkerById(store, id);
  }
}
