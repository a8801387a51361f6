/** The handler of a PATCH on a collection: a chain of checks, each of which
    ends the exchange with 406 Not Acceptable, then the upsert of the
    collection's properties and the response chosen from its result. */
module PatchCollectionHandler {
  import opened Wrappers
  import opened Bson
  import opened Text
  import opened MongoExchange

  /** Keys of the metadata blocks that are parsed before the upsert. */
  const RelationshipsKey := "rels"
  const TransformersKey := "rts"
  const CheckersKey := "checkers"

  const ETagHeader := "ETag"

  const DbNameEmpty := "wrong request, db name cannot be empty"
  const CollectionNameInvalid := "wrong request, collection name cannot be empty or start with _"
  const NoData := "no data provided"
  const NotAnObject := "data must be a json object"
  const RelationshipsInvalid := "wrong relationships definition. "
  const TransformersInvalid := "wrong representation transformer definition. "
  const CheckersInvalid := "wrong schema checker definition. "
  const ETagMissing := "The collection's ETag must be provided using the 'If-Match' header."

  datatype RequestContext = RequestContext(
    dbName: string,
    collectionName: string,
    content: Option<BsonValue>,
    etag: Option<string>,
    etagCheckRequired: bool,
    warnings: Option<seq<string>>)

  /** The three metadata parsers: None when the block is valid, otherwise the
      message of the InvalidMetadataException they throw. */
  datatype MetadataParsers = MetadataParsers(
    relationships: Document -> Option<string>,
    transformers: Document -> Option<string>,
    checkers: Document -> Option<string>)

  /** The arguments of upsertCollection: database, collection, properties,
      request ETag, updating, patching, check ETag. */
  datatype UpsertCall = UpsertCall(
    db: string, collection: string, properties: Document, requestEtag: Option<string>,
    updating: bool, patching: bool, checkEtag: bool)

  datatype OperationResult = OperationResult(httpCode: int, etag: Option<string>)

  /** The observable effects of handling, in the order they happen. */
  datatype Effect =
    | EndedWithMessage(code: int, message: string)
    | Upserted(call: UpsertCall)
    | WarningsSent(code: int)
    | CollectionInvalidated(db: string, collection: string)
    | NextHandled
    | Ended

  predicate MetadataValid(key: string, parse: Document -> Option<string>, fields: Document) {
    key in fields ==> parse(fields).None?
  }

  /** Everything the chain of checks demands, stated independently of the
      order in which they are tried. */
  predicate Acceptable(ctx: RequestContext, parsers: MetadataParsers) {
    && ctx.dbName != ""
    && ctx.collectionName != "" && !StartsWith(ctx.collectionName, "_")
    && ctx.content.Some? && ctx.content.value.BDocument? && ctx.content.value.fields != map[]
    && MetadataValid(RelationshipsKey, parsers.relationships, ctx.content.value.fields)
    && MetadataValid(TransformersKey, parsers.transformers, ctx.content.value.fields)
    && MetadataValid(CheckersKey, parsers.checkers, ctx.content.value.fields)
  }

  predicate NamesValid(ctx: RequestContext) {
    ctx.dbName != "" && ctx.collectionName != "" && !StartsWith(ctx.collectionName, "_")
  }

  predicate ContentValid(ctx: RequestContext) {
    ctx.content.Some? && ctx.content.value.BDocument? && ctx.content.value.fields != map[]
  }

  /** The message of the first check that fails, in the order of the
      source; None when every check passes. */
  function Rejection(ctx: RequestContext, parsers: MetadataParsers): (r: Option<string>)
    ensures r.None? <==> Acceptable(ctx, parsers)
    ensures ctx.dbName == "" ==> r == Some(DbNameEmpty)
    ensures (ctx.dbName != "" && (ctx.collectionName == "" || StartsWith(ctx.collectionName, "_")))
              ==> r == Some(CollectionNameInvalid)
    ensures NamesValid(ctx) && ctx.content.None? ==> r == Some(NoData)
    ensures NamesValid(ctx) && ctx.content.Some? && !ctx.content.value.BDocument? ==> r == Some(NotAnObject)
    ensures NamesValid(ctx) && ctx.content == Some(BDocument(map[])) ==> r == Some(NoData)
    ensures (NamesValid(ctx) && ContentValid(ctx) && RelationshipsKey in ctx.content.value.fields
             && parsers.relationships(ctx.content.value.fields).Some?)
              ==> r == Some(RelationshipsInvalid + parsers.relationships(ctx.content.value.fields).value)
    ensures (NamesValid(ctx) && ContentValid(ctx)
             && MetadataValid(RelationshipsKey, parsers.relationships, ctx.content.value.fields)
             && TransformersKey in ctx.content.value.fields
             && parsers.transformers(ctx.content.value.fields).Some?)
              ==> r == Some(TransformersInvalid + parsers.transformers(ctx.content.value.fields).value)
    ensures (NamesValid(ctx) && ContentValid(ctx)
             && MetadataValid(RelationshipsKey, parsers.relationships, ctx.content.value.fields)
             && MetadataValid(TransformersKey, parsers.transformers, ctx.content.value.fields)
             && CheckersKey in ctx.content.value.fields
             && parsers.checkers(ctx.content.value.fields).Some?)
              ==> r == Some(CheckersInvalid + parsers.checkers(ctx.content.value.fields).value)
  {
    if ctx.dbName == "" then Some(DbNameEmpty)
    else if ctx.collectionName == "" || StartsWith(ctx.collectionName, "_") then Some(CollectionNameInvalid)
    else if ctx.content.None? then Some(NoData)
    else if !ctx.content.value.BDocument? then Some(NotAnObject)
    else if ctx.content.value.fields == map[] then Some(NoData)
    else
      var fields := ctx.content.value.fields;
      if RelationshipsKey in fields && parsers.relationships(fields).Some? then
        Some(RelationshipsInvalid + parsers.relationships(fields).value)
      else if TransformersKey in fields && parsers.transformers(fields).Some? then
        Some(TransformersInvalid + parsers.transformers(fields).value)
      else if CheckersKey in fields && parsers.checkers(fields).Some? then
        Some(CheckersInvalid + parsers.checkers(fields).value)
      else None
  }

  /** A metadata block whose key is absent is never parsed: its parser cannot
      change the outcome. */
  lemma AbsentMetadataNotParsed(ctx: RequestContext, parsers: MetadataParsers, other: Document -> Option<string>)
    requires ContentValid(ctx)
    ensures RelationshipsKey !in ctx.content.value.fields ==>
              Rejection(ctx, parsers) == Rejection(ctx, parsers.(relationships := other))
    ensures TransformersKey !in ctx.content.value.fields ==>
              Rejection(ctx, parsers) == Rejection(ctx, parsers.(transformers := other))
    ensures CheckersKey !in ctx.content.value.fields ==>
              Rejection(ctx, parsers) == Rejection(ctx, parsers.(checkers := other))
  {
  }

  predicate HasWarnings(ctx: RequestContext) {
    ctx.warnings.Some? && ctx.warnings.value != []
  }

  /** The status sending the warnings leaves: a 204 No Content becomes 200 OK,
      since the warnings are sent as a body; any other code is kept. */
  function WarningsStatus(code: int): (r: int)
    ensures r == SC_OK <==> code == SC_NO_CONTENT || code == SC_OK
    ensures r != code ==> code == SC_NO_CONTENT
  {
    if code == SC_NO_CONTENT then SC_OK else code
  }

  /** The call the handler makes once every check has passed. */
  function UpsertCallOf(ctx: RequestContext): (c: UpsertCall)
    requires ctx.content.Some? && ctx.content.value.BDocument?
    ensures c.db == ctx.dbName && c.collection == ctx.collectionName && c.properties == ctx.content.value.fields
    ensures c.requestEtag == ctx.etag && c.updating && c.patching && c.checkEtag == ctx.etagCheckRequired
  {
    UpsertCall(ctx.dbName, ctx.collectionName, ctx.content.value.fields, ctx.etag, true, true, ctx.etagCheckRequired)
  }

  /** The HTTP exchange a handler works on, with the effects it has had. */
  class Exchange {
    var statusCode: int
    var responseHeaders: map<string, string>
    var dbOperationResult: Option<OperationResult>
    var effects: seq<Effect>

    constructor ()
      ensures statusCode == 200 && responseHeaders == map[] && dbOperationResult.None? && effects == []
    {
      statusCode := 200;
      responseHeaders := map[];
      dbOperationResult := None;
      effects := [];
    }

    /** ResponseHelper.endExchangeWithMessage: status, message, end. */
    method EndWithMessage(code: int, message: string)
      modifies this`statusCode, this`effects
      ensures statusCode == code && effects == old(effects) + [EndedWithMessage(code, message)]
    {
      statusCode := code;
      effects := effects + [EndedWithMessage(code, message)];
    }

    method Record(e: Effect)
      modifies this`effects
      ensures effects == old(effects) + [e]
    {
      effects := effects + [e];
    }
  }

  /** handleRequest: the checks in order (each ends the exchange with 406),
      then the upsert and the response. */
  method HandleRequest(exchange: Exchange, ctx: RequestContext, parsers: MetadataParsers,
                       upsert: UpsertCall -> OperationResult, hasNext: bool)
    modifies exchange
    ensures Rejection(ctx, parsers).Some? ==>
              && exchange.effects == old(exchange.effects) + [EndedWithMessage(SC_NOT_ACCEPTABLE, Rejection(ctx, parsers).value)]
              && exchange.statusCode == SC_NOT_ACCEPTABLE
              && exchange.responseHeaders == old(exchange.responseHeaders)
              && exchange.dbOperationResult == old(exchange.dbOperationResult)
    ensures Rejection(ctx, parsers).None? ==> Persisted(exchange, ctx, upsert, hasNext)
  {
    var rejection := Rejection(ctx, parsers);
    if rejection.Some? {
      exchange.EndWithMessage(SC_NOT_ACCEPTABLE, rejection.value);
      return;
    }
    Persist(exchange, ctx, upsert, hasNext);
  }

  /** The state after the upsert: the database result is recorded, the ETag
      header is set iff the result carries one, a 409 ends the exchange at
      once, otherwise the status is the result's code (a 204 becomes 200 when
      warnings are sent), the collection is invalidated in the cache, the next handler
      runs and the exchange ends. */
  twostate predicate Persisted(exchange: Exchange, ctx: RequestContext, upsert: UpsertCall -> OperationResult, hasNext: bool)
    requires ctx.content.Some? && ctx.content.value.BDocument?
    reads exchange
  {
    var call := UpsertCallOf(ctx);
    var result := upsert(call);
    && exchange.dbOperationResult == Some(result)
    && exchange.responseHeaders ==
         (if result.etag.Some? then old(exchange.responseHeaders)[ETagHeader := result.etag.value]
          else old(exchange.responseHeaders))
    && (result.httpCode == SC_CONFLICT ==>
          && exchange.effects == old(exchange.effects) + [Upserted(call), EndedWithMessage(SC_CONFLICT, ETagMissing)]
          && exchange.statusCode == SC_CONFLICT)
    && (result.httpCode != SC_CONFLICT ==>
          && exchange.effects == old(exchange.effects) + [Upserted(call)]
               + (if HasWarnings(ctx) then [WarningsSent(result.httpCode)] else [])
               + [CollectionInvalidated(ctx.dbName, ctx.collectionName)]
               + (if hasNext then [NextHandled] else [])
               + [Ended]
          && exchange.statusCode == (if HasWarnings(ctx) then WarningsStatus(result.httpCode) else result.httpCode))
  }

  method Persist(exchange: Exchange, ctx: RequestContext, upsert: UpsertCall -> OperationResult, hasNext: bool)
    requires ctx.content.Some? && ctx.content.value.BDocument?
    modifies exchange
    ensures Persisted(exchange, ctx, upsert, hasNext)
  {
    var call := UpsertCallOf(ctx);
    var result := upsert(call);
    exchange.Record(Upserted(call));
    exchange.dbOperationResult := Some(result);

    if result.etag.Some? {
      exchange.responseHeaders := exchange.responseHeaders[ETagHeader := result.etag.value];
    }

    if result.httpCode == SC_CONFLICT {
      exchange.EndWithMessage(SC_CONFLICT, ETagMissing);
      return;
    }

    if HasWarnings(ctx) {
      exchange.Record(WarningsSent(result.httpCode));
      exchange.statusCode := WarningsStatus(result.httpCode);
    } else {
      exchange.statusCode := result.httpCode;
    }

    exchange.Record(CollectionInvalidated(ctx.dbName, ctx.collectionName));

    if hasNext {
      exchange.Record(NextHandled);
    }

    exchange.Record(Ended);
  }
}
