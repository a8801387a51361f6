/** The GraphQL service: request acceptance, the application name taken from
    the path, and the ordered error responses of handle. */
module GraphQLService {
  import opened Wrappers
  import opened Bson
  import opened Text
  import MongoExchange

  const GraphQLContentType := "application/graphql"
  const GraphQLContentTypePrefix := "application/graphql;"
  const NotInitialized := "MongoClient not initialized"
  const BadRequest := "Bad Request"

  datatype ByteArrayRequest = ByteArrayRequest(
    httpMethod: MongoExchange.Method,
    path: string,
    contentType: Option<string>,
    content: Option<seq<bv8>>)

  /** The schema of a GraphQL application definition. */
  datatype AppSchema = AppSchema(definition: string)

  /** The query and optional variables read from the JSON body. */
  datatype ExecutionInput = ExecutionInput(query: string, variables: Option<map<string, ConfValue>>)

  /** What executing a query yields: its error messages, whether data is
      present, and the specification as a BSON document. */
  datatype ExecutionResult = ExecutionResult(errors: seq<string>, dataPresent: bool, specification: Document)

  /** The foreign calls: the application cache, the parse of the JSON body
      (None where it throws) and query execution. */
  datatype Engine = Engine(
    appCache: string -> Option<AppSchema>,
    parseBody: seq<bv8> -> Option<ExecutionInput>,
    execute: (AppSchema, ExecutionInput) -> ExecutionResult)

  /** handle either returns or propagates an exception. */
  datatype Outcome = Completed | Thrown(cause: Cause)
  datatype Cause = PathTooShort | MalformedBody

  function IsContentTypeGraphQL(req: ByteArrayRequest): (r: bool)
    ensures req.contentType.None? ==> !r
    ensures r <==> (req.contentType.Some? && StartsWith(req.contentType.value, GraphQLContentType)
                    && (|req.contentType.value| == |GraphQLContentType|
                        || req.contentType.value[|GraphQLContentType|] == ';'))
  {
    if req.contentType.Some? then
      StartsWithExtended(req.contentType.value, GraphQLContentType, ';');
      assert GraphQLContentTypePrefix == GraphQLContentType + [';'];
      assert req.contentType.value == GraphQLContentType <==>
             StartsWith(req.contentType.value, GraphQLContentType) && |req.contentType.value| == |GraphQLContentType|;
      req.contentType == Some(GraphQLContentType)
      || StartsWith(req.contentType.value, GraphQLContentTypePrefix)
    else false
  }

  function Check(req: ByteArrayRequest): (r: bool)
    ensures r ==> req.httpMethod == MongoExchange.POST
    ensures req.content.None? || req.contentType.None? ==> !r
    ensures r ==> IsContentTypeGraphQL(req)
    ensures req.httpMethod == MongoExchange.POST && req.content.Some? && IsContentTypeGraphQL(req) ==> r
  {
    req.httpMethod == MongoExchange.POST && req.content.Some? && IsContentTypeGraphQL(req)
  }

  /** The content type is accepted exactly when it is the GraphQL media type,
      either bare or followed by parameters. */
  lemma ContentTypeAccepted(req: ByteArrayRequest)
    ensures req.contentType.None? ==> !IsContentTypeGraphQL(req)
    ensures (req.contentType.Some? && |req.contentType.value| >= |GraphQLContentType|
             && req.contentType.value[..|GraphQLContentType|] != GraphQLContentType)
              ==> !IsContentTypeGraphQL(req)
    ensures req.contentType == Some(GraphQLContentType + ";charset=utf-8") ==> IsContentTypeGraphQL(req)
    ensures req.contentType == Some("application/graphqlx") ==> !IsContentTypeGraphQL(req)
  {
    if req.contentType == Some("application/graphqlx") {
      assert "application/graphqlx"[19] != GraphQLContentTypePrefix[19];
    }
    if req.contentType == Some(GraphQLContentType + ";charset=utf-8") {
      assert (GraphQLContentType + ";charset=utf-8")[..|GraphQLContentTypePrefix|] == GraphQLContentTypePrefix;
    }
  }

  /** Element 2 of the path split on '/', or None where the split has fewer
      than three elements (the index throws). */
  function AppName(path: string): (r: Option<string>)
    ensures r.Some? <==> |Split(path, '/')| > 2
    ensures r.Some? ==> r.value == Split(path, '/')[2]
  {
    var split := Split(path, '/');
    if |split| > 2 then Some(split[2]) else None
  }

  /** "/" + service + "/" + app, optionally followed by further segments,
      names the application app. */
  lemma {:induction false} AppNameOfPath(service: string, app: string, rest: string)
    requires '/' !in service && '/' !in app && app != ""
    requires rest == "" || rest[0] == '/'
    ensures AppName("/" + service + "/" + app + rest) == Some(app)
  {
    var path := "/" + service + "/" + app + rest;
    assert path == "" + ['/'] + (service + ['/'] + (app + rest));
    PiecesAfterWord("", '/', service + ['/'] + (app + rest));
    PiecesAfterWord(service, '/', app + rest);
    var tail: seq<string>;
    if rest == "" {
      assert app + rest == app;
      PiecesWithoutSeparator(app, '/');
      tail := [];
    } else {
      assert app + rest == app + ['/'] + rest[1..];
      PiecesAfterWord(app, '/', rest[1..]);
      tail := Pieces(rest[1..], '/');
    }
    assert Pieces(path, '/') == ["", service, app] + tail;
    assert path[0] == '/';
    DropTrailingEmptyAppend(["", service, app], tail);
  }

  /** The concrete path of the service's own default URI with no application
      segment has no element 2. */
  lemma ServiceRootHasNoApp()
    ensures AppName("/graphql").None?
  {
    var path := "/graphql";
    assert path == "" + ['/'] + "graphql";
    PiecesAfterWord("", '/', "graphql");
    PiecesWithoutSeparator("graphql", '/');
    assert Pieces(path, '/') == ["", "graphql"];
    assert path[0] == '/';
  }

  /** Each error message followed by ";", in order. */
  function ErrorText(messages: seq<string>): (r: string)
    ensures |r| >= 2 * |messages| || exists k :: 0 <= k < |messages| && messages[k] == ""
    ensures messages != [] ==> |r| > 0 && r[|r| - 1] == ';'
    ensures messages == [] ==> r == ""
    decreases |messages|
  {
    if |messages| == 0 then ""
    else ErrorText(messages[..|messages| - 1]) + messages[|messages| - 1] + ";"
  }

  lemma {:induction false} ErrorTextAppend(a: seq<string>, b: seq<string>)
    ensures ErrorText(a + b) == ErrorText(a) + ErrorText(b)
    decreases |b|
  {
    if |b| > 0 {
      assert (a + b)[..|a + b| - 1] == a + b[..|b| - 1];
      ErrorTextAppend(a, b[..|b| - 1]);
    } else {
      assert a + b == a;
    }
  }

  /** Splitting the error text on ';' gives back the messages, when none of
      them is empty or holds a ';'. */
  lemma {:induction false} ErrorTextSplits(messages: seq<string>)
    requires messages != []
    requires forall k :: 0 <= k < |messages| ==> messages[k] != "" && ';' !in messages[k]
    ensures Split(ErrorText(messages), ';') == messages
  {
    ErrorTextPieces(messages);
    var text := ErrorText(messages);
    assert text == ErrorText(messages[..|messages| - 1]) + messages[|messages| - 1] + ";";
    assert text[|text| - 1] == ';';
    DropTrailingEmptyAppend(messages, [""]);
    assert DropTrailingEmpty([""]) == DropTrailingEmpty([]);
  }

  lemma {:induction false} ErrorTextPieces(messages: seq<string>)
    requires forall k :: 0 <= k < |messages| ==> ';' !in messages[k]
    ensures Pieces(ErrorText(messages), ';') == messages + [""]
    decreases |messages|
  {
    if |messages| > 0 {
      var m := messages[0];
      assert messages == [m] + messages[1..];
      ErrorTextAppend([m], messages[1..]);
      assert ErrorText([m]) == ErrorText([]) + m + ";";
      assert ErrorText(messages) == m + [';'] + ErrorText(messages[1..]);
      PiecesAfterWord(m, ';', ErrorText(messages[1..]));
      ErrorTextPieces(messages[1..]);
    }
  }

  /** The StringBuilder loop: each message, then ";". */
  method BuildErrorMessage(errors: seq<string>) returns (text: string)
    ensures text == ErrorText(errors)
  {
    text := "";
    var i := 0;
    while i < |errors|
      invariant 0 <= i <= |errors|
      invariant text == ErrorText(errors[..i])
    {
      assert errors[..i + 1][..i] == errors[..i];
      text := text + errors[i] + ";";
      i := i + 1;
    }
    assert errors[..i] == errors;
  }

  /** The error response handle sends, if any. */
  datatype ErrorReply = ErrorReply(code: int, message: string)

  /** What handle does in each case: the outcome, the error response, the body
      set on success, and the schema the engine is rebuilt from. */
  datatype Reply = Reply(outcome: Outcome, error: Option<ErrorReply>, content: Option<Document>, built: Option<AppSchema>)

  function Decide(initialized: bool, req: ByteArrayRequest, engine: Engine): (r: Reply)
    ensures !initialized ==> r == Reply(Completed, Some(ErrorReply(MongoExchange.SC_INTERNAL_SERVER_ERROR, NotInitialized)), None, None)
    ensures initialized && !Check(req) ==> r == Reply(Completed, Some(ErrorReply(MongoExchange.SC_BAD_REQUEST, BadRequest)), None, None)
    ensures (initialized && Check(req) && AppName(req.path).None?) ==> r == Reply(Thrown(PathTooShort), None, None, None)
    ensures (initialized && Check(req) && AppName(req.path).Some? && engine.appCache(AppName(req.path).value).None?)
              ==> r == Reply(Completed, Some(ErrorReply(MongoExchange.SC_BAD_REQUEST, BadRequest)), None, None)
    ensures r.built.Some? <==>
              (initialized && Check(req) && AppName(req.path).Some? && engine.appCache(AppName(req.path).value).Some?
               && engine.parseBody(req.content.value).Some?)
    ensures r.built.Some? ==> r.built == engine.appCache(AppName(req.path).value)
    ensures r.outcome.Thrown? ==> r.error.None? && r.content.None?
    ensures r.content.Some? ==> r.error.None? && r.built.Some?
    ensures (initialized && Check(req) && AppName(req.path).Some? && engine.appCache(AppName(req.path).value).Some?
             && engine.parseBody(req.content.value).None?)
              ==> r == Reply(Thrown(MalformedBody), None, None, None)
    ensures r.built.Some? ==>
              var result := engine.execute(r.built.value, engine.parseBody(req.content.value).value);
              && r.outcome == Completed
              && (result.errors == [] ==>
                    r.error.None? && r.content == (if result.dataPresent then Some(result.specification) else None))
              && (result.errors != [] ==>
                    r.error == Some(ErrorReply(MongoExchange.SC_BAD_REQUEST, ErrorText(result.errors))) && r.content.None?)
    ensures r.error.Some? && r.built.Some? ==>
              r.error.value == ErrorReply(MongoExchange.SC_BAD_REQUEST,
                                          ErrorText(engine.execute(r.built.value, engine.parseBody(req.content.value).value).errors))
  {
    if !initialized then Reply(Completed, Some(ErrorReply(MongoExchange.SC_INTERNAL_SERVER_ERROR, NotInitialized)), None, None)
    else if !Check(req) then Reply(Completed, Some(ErrorReply(MongoExchange.SC_BAD_REQUEST, BadRequest)), None, None)
    else match AppName(req.path)
      case None => Reply(Thrown(PathTooShort), None, None, None)
      case Some(appName) =>
        match engine.appCache(appName)
        case None => Reply(Completed, Some(ErrorReply(MongoExchange.SC_BAD_REQUEST, BadRequest)), None, None)
        case Some(schema) =>
          match engine.parseBody(req.content.value)
          case None => Reply(Thrown(MalformedBody), None, None, None)
          case Some(input) =>
            var result := engine.execute(schema, input);
            if result.errors != [] then
              Reply(Completed, Some(ErrorReply(MongoExchange.SC_BAD_REQUEST, ErrorText(result.errors))), None, Some(schema))
            else if result.dataPresent then Reply(Completed, None, Some(result.specification), Some(schema))
            else Reply(Completed, None, None, Some(schema))
  }

  /** A request that is not a POST with a GraphQL body is answered 400 before
      the path is looked at, so the path cannot change the reply. */
  lemma RejectedBeforePath(req: ByteArrayRequest, engine: Engine, path: string)
    requires !Check(req)
    ensures Decide(true, req, engine) == Decide(true, req.(path := path), engine)
  {
  }

  /** Execution errors take precedence over data: no body is set. */
  lemma ErrorsSuppressContent(req: ByteArrayRequest, engine: Engine)
    requires Check(req) && AppName(req.path).Some?
    requires engine.appCache(AppName(req.path).value).Some?
    requires engine.parseBody(req.content.value).Some?
    requires engine.execute(engine.appCache(AppName(req.path).value).value, engine.parseBody(req.content.value).value).errors != []
    ensures Decide(true, req, engine).content.None? && Decide(true, req, engine).error.Some?
  {
  }

  class GraphQLService {
    /** Whether init obtained a MongoDB client. */
    var mongoClientInitialized: bool
    /** The schema the GraphQL engine was last built from. */
    var gql: Option<AppSchema>

    constructor (mongoClientInitialized: bool)
      ensures this.mongoClientInitialized == mongoClientInitialized && gql.None?
    {
      this.mongoClientInitialized := mongoClientInitialized;
      gql := None;
    }

    method Handle(req: ByteArrayRequest, response: MongoExchange.MongoResponse, engine: Engine) returns (outcome: Outcome)
      modifies this`gql, response
      ensures var d := Decide(mongoClientInitialized, req, engine);
              && outcome == d.outcome
              && gql == (if d.built.Some? then d.built else old(gql))
              && (d.error.Some? ==>
                    response.statusCode == d.error.value.code && response.inError
                    && response.errorMessage == Some(d.error.value.message))
              && (d.error.None? ==>
                    response.statusCode == old(response.statusCode) && response.inError == old(response.inError)
                    && response.errorMessage == old(response.errorMessage))
              && response.content == (if d.content.Some? then Some(BDocument(d.content.value)) else old(response.content))
    {
      if !mongoClientInitialized {
        response.SetInErrorWith(MongoExchange.SC_INTERNAL_SERVER_ERROR, NotInitialized);
        return Completed;
      }
      if !Check(req) {
        response.SetInErrorWith(MongoExchange.SC_BAD_REQUEST, BadRequest);
        return Completed;
      }
      var split := Split(req.path, '/');
      if |split| <= 2 {
        return Thrown(PathTooShort);
      }
      var appName := split[2];
      var appDefinition := engine.appCache(appName);
      if appDefinition.None? {
        response.SetInErrorWith(MongoExchange.SC_BAD_REQUEST, BadRequest);
        return Completed;
      }
      var input := engine.parseBody(req.content.value);
      if input.None? {
        return Thrown(MalformedBody);
      }
      gql := appDefinition;
      var result := engine.execute(appDefinition.value, input.value);
      if result.errors != [] {
        var error := BuildErrorMessage(result.errors);
        response.SetInErrorWith(MongoExchange.SC_BAD_REQUEST, error);
        return Completed;
      } else if result.dataPresent {
        response.SetContent(BDocument(result.specification));
      }
      return Completed;
    }
  }
}
