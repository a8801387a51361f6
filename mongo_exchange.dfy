/** The request and response views of a MongoDB service request that the
    interceptors read and change. */
module MongoExchange {
  import opened Wrappers
  import opened Bson

  datatype Method = GET | POST | PUT | PATCH | DELETE | OPTIONS | OtherMethod

  /** The kind of resource a request addresses; each is*() test on the
      request asks whether it is one particular kind. */
  datatype RequestType =
    | Root
    | Db
    | DbMeta
    | Collection
    | CollectionMeta
    | Document
    | CollectionIndexes
    | Index
    | FilesBucket
    | FilesBucketMeta
    | Schema
    | SchemaStore
    | SchemaStoreSize
    | SchemaStoreMeta
    | OtherType

  datatype MongoRequest = MongoRequest(requestType: RequestType, httpMethod: Method, handledBy: string)

  const SC_OK := 200
  const SC_NO_CONTENT := 204
  const SC_BAD_REQUEST := 400
  const SC_FORBIDDEN := 403
  const SC_NOT_ACCEPTABLE := 406
  const SC_CONFLICT := 409
  const SC_INTERNAL_SERVER_ERROR := 500

  /** The mutable response: status code, error flag, error message and body. */
  class MongoResponse {
    var statusCode: int
    var inError: bool
    var errorMessage: Option<string>
    var content: Option<BsonValue>

    constructor (statusCode: int)
      ensures this.statusCode == statusCode && !inError && errorMessage.None? && content.None?
    {
      this.statusCode := statusCode;
      inError := false;
      errorMessage := None;
      content := None;
    }

    method SetStatusCode(code: int)
      modifies this`statusCode
      ensures statusCode == code
    {
      statusCode := code;
    }

    method SetInError(flag: bool)
      modifies this`inError
      ensures inError == flag
    {
      inError := flag;
    }

    /** setInError(code, message): an error response with that status and message. */
    method SetInErrorWith(code: int, message: string)
      modifies this`statusCode, this`inError, this`errorMessage
      ensures statusCode == code && inError && errorMessage == Some(message)
    {
      statusCode := code;
      inError := true;
      errorMessage := Some(message);
    }

    method SetContent(body: BsonValue)
      modifies this`content
      ensures content == Some(body)
    {
      content := Some(body);
    }
  }
}
