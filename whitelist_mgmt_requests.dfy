/** The interceptor that forbids MongoDB management requests (creating or
    deleting databases, collections and file buckets, indexes, schemas and
    metadata) unless the matching ACL permission whitelists them. */
module WhitelistMgmtRequests {
  import opened Wrappers
  import opened MongoExchange
  import AclPermission

  /** The kinds forbidden whatever the method: indexes, schemas and metadata. */
  const AlwaysForbidden: set<RequestType> :=
    {Index, CollectionIndexes, Schema, SchemaStore, SchemaStoreSize,
     DbMeta, CollectionMeta, FilesBucketMeta, SchemaStoreMeta}

  /** The forbidden-request table of handle(). */
  function Forbidden(req: MongoRequest): (r: bool)
    ensures req.requestType == Db ==> (r <==> req.httpMethod != GET)
    ensures req.requestType == Collection ==> (r <==> req.httpMethod != GET && req.httpMethod != POST)
    ensures req.requestType == FilesBucket ==> (r <==> req.httpMethod != GET)
    ensures req.requestType in AlwaysForbidden ==> r
    ensures req.requestType in {Root, Document, OtherType} ==> !r
  {
    var t := req.requestType;
    || (t == Db && req.httpMethod != GET)
    || (t == Collection && (req.httpMethod != GET && req.httpMethod != POST))
    || t == Index
    || t == CollectionIndexes
    || (t == FilesBucket && req.httpMethod != GET)
    || t == Schema
    || t == SchemaStore
    || t == SchemaStoreSize
    || t == DbMeta
    || t == CollectionMeta
    || t == FilesBucketMeta
    || t == SchemaStoreMeta
  }

  /** A read is forbidden only for the kinds that are forbidden for every
      method; a write is forbidden for every kind except documents, the root
      and the other kinds, and for a POST to a collection. */
  lemma ForbiddenReadsAndWrites(req: MongoRequest)
    ensures req.httpMethod == GET ==>
              (Forbidden(req) <==> req.requestType !in {Db, Collection, FilesBucket, Root, Document, OtherType})
    ensures req.httpMethod == POST ==>
              (Forbidden(req) <==> req.requestType !in {Collection, Root, Document, OtherType})
    ensures req.httpMethod in {PUT, PATCH, DELETE} ==>
              (Forbidden(req) <==> req.requestType !in {Root, Document, OtherType})
  {
  }

  /** handle(): a forbidden request gets 403 and is marked in error; any other
      leaves the response as it was. */
  method Handle(req: MongoRequest, response: MongoResponse)
    modifies response
    ensures Forbidden(req) ==> response.statusCode == SC_FORBIDDEN && response.inError
    ensures !Forbidden(req) ==> response.statusCode == old(response.statusCode)
                                 && response.inError == old(response.inError)
    ensures response.errorMessage == old(response.errorMessage) && response.content == old(response.content)
  {
    if Forbidden(req) {
      response.SetStatusCode(SC_FORBIDDEN);
      response.SetInError(true);
    }
  }

  /** resolve(): the interceptor runs only for requests handled by the
      "mongo" service with an attached permission whose restrictions do not
      whitelist management requests. */
  function Resolve(req: MongoRequest, permission: Option<AclPermission.Permission>): (r: bool)
    ensures (req.handledBy != "mongo" || permission.None? || permission.value.mongoPermissions.None?) ==> !r
    ensures (req.handledBy == "mongo" && permission.Some? && permission.value.mongoPermissions.Some?)
              ==> (r <==> !permission.value.mongoPermissions.value.whitelistManagementRequests)
  {
    if req.handledBy != "mongo" || permission.None? || permission.value.mongoPermissions.None? then false
    else !permission.value.mongoPermissions.value.whitelistManagementRequests
  }

  /** For a permission loaded from a stored document, the gate depends only on
      the service and the whitelist flag of its restriction. */
  lemma ResolveForLoadedPermission(req: MongoRequest, doc: Bson.Document, env: AclPermission.Loaders)
    requires AclPermission.FromDocument(doc, env).Success?
    ensures var p := AclPermission.FromDocument(doc, env).value;
            Resolve(req, Some(p)) <==> req.handledBy == "mongo" && !p.mongoPermissions.value.whitelistManagementRequests
  {
  }
}
