# RESTHeart request-decision core in Dafny

This project models the decision logic of five RESTHeart components and proves what they promise:

- **ACL permission records.** A permission is built from a stored BSON document or from a configuration map. Either build validates roles, predicate, priority and the `mongo` restriction, and fails where the Java constructor throws. A permission resolves through its predicate. `interpolateFilterVars` substitutes `%USER`, `%ROLES` and `%NOW` in a filter's text.
- **The management-request whitelist interceptor.** A table over resource kind and HTTP method decides which requests are forbidden. A forbidden request is answered 403 and marked in error. A gate reads the attached permission's whitelist flag.
- **PATCH on a collection.** An ordered chain of 406 checks runs before the upsert. After the upsert, the ETag header, the 409 short-circuit, the status, the cache invalidation, the next handler and the end of the exchange follow in order.
- **The global checker wrapper.** The checker is consulted only when its predicate resolves.
- **The GraphQL service.** A request is accepted only when it is a POST with content and a GraphQL content type. The application name is taken from the path. The error responses follow in a fixed order, and the execution error text is built in a loop.

Modules:

- `Wrappers`: Option and Result.
- `Bson`: BSON and configuration values, and Java's int and long narrowing.
- `Text`: `String.replace`, `String.split` on one character and `Long.toString`, as functions on `seq<char>`, with their lemmas.
- `AclPermission`, `MongoExchange` (request kinds and the mutable `MongoResponse`), `WhitelistMgmtRequests`, `PatchCollectionHandler` (the mutable `Exchange`), `GlobalChecker` and `GraphQLService`.

Calls into code that is not part of this model are passed in as parameters:

- predicate parsing and evaluation (`Loaders.parses` and `holds`)
- `MongoPermissions.from` and the default restriction
- the remote user, the security context and the clock (an epoch second)
- the database upsert
- the three metadata parsers
- the GraphQL application cache, the JSON body parse and query execution

The upsert is modelled as a function of its arguments.

The handlers that change state are classes:

- `MongoResponse` has status, error flag, message and content.
- `Exchange` has status, response headers, the recorded database result and the sequence of effects.
- `GraphQLService` has the initialised client flag and the schema the engine was last built from.

Each method's contract ties the new state to a pure function of the inputs:

- `Rejection` and `Persisted` for the PATCH handler
- `Decide` for the GraphQL service
- `Interpolate` for the filter substitution
- `ErrorText` for the error message loop

The properties are proved about those functions.

The two constructors differ in two places, and the model keeps both differences:

- The document constructor requires `roles` to be a non-empty array (security/src/main/java/org/restheart/security/plugins/authorizers/AclPermission.java:87-89). The map constructor adds whatever `roles` list it is given (security/src/main/java/org/restheart/security/plugins/authorizers/AclPermission.java:152-153), so `roles: []` builds a permission with no roles. `ArgsAcceptEmptyRoles` shows it.
- The document constructor gives the default restriction only when `mongo` is absent (security/src/main/java/org/restheart/security/plugins/authorizers/AclPermission.java:126-127). A BSON `null` value is not a document, so it is rejected (security/src/main/java/org/restheart/security/plugins/authorizers/AclPermission.java:130-131). The direct constructor defaults on a Java null document (security/src/main/java/org/restheart/security/plugins/authorizers/AclPermission.java:72-74). The map constructor defaults only when the key is absent (security/src/main/java/org/restheart/security/plugins/authorizers/AclPermission.java:185-186); a present null is handed to `MongoPermissions.from` (security/src/main/java/org/restheart/security/plugins/authorizers/AclPermission.java:183-184).

## Model

| member | source | states |
|---|---|---|
| AclPermission.NewPermission | security/src/main/java/org/restheart/security/plugins/authorizers/AclPermission.java:67-75 | every part is stored unchanged; a null restriction document gives the default restriction, otherwise its parsed form |
| AclPermission.RoleSet | security/src/main/java/org/restheart/security/plugins/authorizers/AclPermission.java:95-96 | a role is in the set exactly when the array holds it as a string (duplicates collapse) |
| AclPermission.DocumentPriority | security/src/main/java/org/restheart/security/plugins/authorizers/AclPermission.java:110-118 | a missing, null or non-numeric priority is Integer.MAX_VALUE, a Decimal128 counting as non-numeric; any int32, int64 or double priority is its intValue |
| AclPermission.FromDocument | security/src/main/java/org/restheart/security/plugins/authorizers/AclPermission.java:82-133 | roles must be a non-empty all-string array, then predicate a string, then parseable, each with its own error in that order; success exactly when those hold, `_id` is present and `mongo` is absent or a document; the built record's id, role set, predicate, priority and restriction |
| AclPermission.ArgsRoles | security/src/main/java/org/restheart/security/plugins/authorizers/AclPermission.java:145-156 | both `role` and `roles`, or neither, is an error; `role` gives the singleton set; `roles` is accepted exactly when it is a list of strings, and gives exactly those strings |
| AclPermission.ArgsPriority | security/src/main/java/org/restheart/security/plugins/authorizers/AclPermission.java:174-180 | an absent priority is Integer.MAX_VALUE; an Integer is kept; any other value fails |
| AclPermission.ArgsMongo | security/src/main/java/org/restheart/security/plugins/authorizers/AclPermission.java:182-187 | an absent `mongo` gives the default restriction; a map, or a present null, is handed to MongoPermissions.from and its failure is an error; any other value fails |
| AclPermission.FromArgs | security/src/main/java/org/restheart/security/plugins/authorizers/AclPermission.java:142-188 | role errors first, then a missing or null predicate, then an unparseable one; success exactly when roles, predicate, priority and restriction all succeed; the record has no id and the parsed parts |
| AclPermission.Resolve | security/src/main/java/org/restheart/security/plugins/authorizers/AclPermission.java:237-243 | false without a predicate, otherwise exactly the predicate's verdict |
| AclPermission.LoadedDocumentPermission | security/src/main/java/org/restheart/security/plugins/authorizers/AclPermission.java:82-133 | a record built from a document has a non-empty role set and a restriction, and resolves as its predicate text |
| AclPermission.LoadedArgsPermission | security/src/main/java/org/restheart/security/plugins/authorizers/AclPermission.java:142-188 | a record built from a map has a restriction, resolves as its predicate text, and holds just the `role` value when that key is used |
| AclPermission.FromDocumentIsDirect | security/src/main/java/org/restheart/security/plugins/authorizers/AclPermission.java:67-75 | a record built from a document is the one the direct constructor builds from its id, role set, predicate, restriction document and priority |
| AclPermission.ArgsAcceptEmptyRoles | security/src/main/java/org/restheart/security/plugins/authorizers/AclPermission.java:152-153 | an empty `roles` list is accepted by the map form and gives an empty role set |
| AclPermission.RolesText | security/src/main/java/org/restheart/security/plugins/authorizers/AclPermission.java:266-274 | the account's roles text when there is an account with roles; otherwise `[]` |
| AclPermission.NowText | security/src/main/java/org/restheart/security/plugins/authorizers/AclPermission.java:277-278 | `%NOW` becomes `{'$date':n}` with n the epoch second times 1000, whenever that product fits a long |
| AclPermission.Interpolate | security/src/main/java/org/restheart/security/plugins/authorizers/AclPermission.java:257-278 | text holding none of the three placeholders is returned unchanged |
| AclPermission.NowTextValue | security/src/main/java/org/restheart/security/plugins/authorizers/AclPermission.java:277-278 | the date literal is `{'$date':` digits `}` whose decimal value is the epoch second times 1000 as a long |
| AclPermission.NowTextAvoids | security/src/main/java/org/restheart/security/plugins/authorizers/AclPermission.java:278 | the date literal holds no character outside its frame, the digits and '-' |
| AclPermission.InterpolateLeavesNoNow | security/src/main/java/org/restheart/security/plugins/authorizers/AclPermission.java:277-278 | no `%NOW` is left after interpolation |
| AclPermission.InterpolateLeavesNoRolesWithoutAccount | security/src/main/java/org/restheart/security/plugins/authorizers/AclPermission.java:265-278 | without an account that has roles, no `%ROLES` is left, whatever the text and the user |
| AclPermission.InterpolateLeavesNoRoles | security/src/main/java/org/restheart/security/plugins/authorizers/AclPermission.java:265-278 | no `%ROLES` is left when the roles text is non-empty and holds no character of `%ROLES`, whatever the text and the user |
| AclPermission.InterpolateLeavesNoUser | security/src/main/java/org/restheart/security/plugins/authorizers/AclPermission.java:259-278 | with a remote user, no `%USER` is left, when neither the user name nor the roles text is empty or holds a character of `%USER` |
| AclPermission.InterpolateKeepsUserWithoutPrincipal | security/src/main/java/org/restheart/security/plugins/authorizers/AclPermission.java:259-263 | without a remote user an occurrence of `%USER` survives all three substitutions |
| AclPermission.InterpolateOwnerExample | security/src/main/java/org/restheart/security/plugins/authorizers/AclPermission.java:259-278 | `{"owner":"%USER"}` for user alice becomes `{"owner":"alice"}`, whatever the security context |
| AclPermission.InterpolateRolesWithoutAccount | security/src/main/java/org/restheart/security/plugins/authorizers/AclPermission.java:272-274 | `{"roles":%ROLES}` without an account becomes `{"roles":[]}` |
| AclPermission.InterpolateFilterVars | security/src/main/java/org/restheart/security/plugins/authorizers/AclPermission.java:252-281 | a null filter gives null and only then; otherwise the result is the interpolated text, holds no `%NOW`, and equals the input when the input holds no placeholder |
| WhitelistMgmtRequests.Forbidden | security/src/main/java/org/restheart/security/plugins/interceptors/mongo/WhitelistMgmgRequests.java:39-54 | a db or files-bucket request is forbidden iff not GET; a collection request iff neither GET nor POST; indexes, schemas and the four meta kinds always; root, documents and other kinds never |
| WhitelistMgmtRequests.ForbiddenReadsAndWrites | security/src/main/java/org/restheart/security/plugins/interceptors/mongo/WhitelistMgmgRequests.java:39-54 | a GET is forbidden exactly for the always-forbidden kinds; a POST for every kind except collections, root, documents and other kinds; a PUT, PATCH or DELETE for every kind except root, documents and other kinds |
| WhitelistMgmtRequests.Handle | security/src/main/java/org/restheart/security/plugins/interceptors/mongo/WhitelistMgmgRequests.java:38-59 | a forbidden request gets status 403 and in-error; otherwise status and flag are unchanged; message and content are never touched |
| WhitelistMgmtRequests.Resolve | security/src/main/java/org/restheart/security/plugins/interceptors/mongo/WhitelistMgmgRequests.java:62-72 | false when not handled by "mongo", without a permission or without restrictions; otherwise true iff management requests are not whitelisted |
| WhitelistMgmtRequests.ResolveForLoadedPermission | security/src/main/java/org/restheart/security/plugins/interceptors/mongo/WhitelistMgmgRequests.java:62-72 | for a permission built from a document, the gate depends only on the service name and the whitelist flag |
| MongoExchange.MongoResponse.SetStatusCode | security/src/main/java/org/restheart/security/plugins/interceptors/mongo/WhitelistMgmgRequests.java:56 | the status becomes the given code |
| MongoExchange.MongoResponse.SetInError | security/src/main/java/org/restheart/security/plugins/interceptors/mongo/WhitelistMgmgRequests.java:57 | the error flag becomes the given value |
| MongoExchange.MongoResponse.SetInErrorWith | graphql/src/main/java/org/restheart/graphql/GraphQLService.java:38 | status, error flag and message are set together |
| MongoExchange.MongoResponse.SetContent | graphql/src/main/java/org/restheart/graphql/GraphQLService.java:83 | the body becomes the given value |
| PatchCollectionHandler.Rejection | src/main/java/org/restheart/handlers/collection/PatchCollectionHandler.java:65-160 | no rejection exactly when every check passes; an empty db name, then a bad collection name, then null, non-document or empty content, then each present and invalid metadata block (rels, rts, checkers) gives its own message, the first failing check deciding |
| PatchCollectionHandler.AbsentMetadataNotParsed | src/main/java/org/restheart/handlers/collection/PatchCollectionHandler.java:118-160 | a metadata parser whose key is absent cannot change the outcome |
| PatchCollectionHandler.WarningsStatus | src/main/java/org/restheart/handlers/collection/PatchCollectionHandler.java:189-192 | sending warnings turns a 204 No Content into 200 OK and keeps any other code |
| PatchCollectionHandler.UpsertCallOf | src/main/java/org/restheart/handlers/collection/PatchCollectionHandler.java:162-170 | the upsert gets the db and collection names, the content, the request ETag, updating and patching set, and the ETag-check flag |
| PatchCollectionHandler.Exchange.EndWithMessage | src/main/java/org/restheart/handlers/collection/PatchCollectionHandler.java:66-70 | the status becomes the code and an end-with-message effect is appended |
| PatchCollectionHandler.Exchange.Record | src/main/java/org/restheart/handlers/collection/PatchCollectionHandler.java:197-206 | one effect is appended to the recorded effects |
| PatchCollectionHandler.HandleRequest | src/main/java/org/restheart/handlers/collection/PatchCollectionHandler.java:64-207 | a rejected request ends with 406 and its message, and nothing else happens: no upsert, no header, no recorded result; an accepted one satisfies Persisted |
| PatchCollectionHandler.Persisted | src/main/java/org/restheart/handlers/collection/PatchCollectionHandler.java:162-206 | the state after the upsert: the recorded result, the ETag header iff the result has an etag, the 409 short-circuit before cache and next handler, otherwise the status, the warnings, the invalidation, the next handler and the end in that order |
| PatchCollectionHandler.Persist | src/main/java/org/restheart/handlers/collection/PatchCollectionHandler.java:162-206 | the result is recorded; the ETag header is set iff the result has an etag; a 409 ends with 409 and the ETag message before cache invalidation and the next handler; otherwise the status is the result code, or the WarningsStatus of it when warnings are sent, then the collection is invalidated, the next handler runs if present and the exchange ends |
| GlobalChecker.Resolve | commons/src/main/java/org/restheart/plugins/mongodb/GlobalChecker.java:89-92 | exactly the stored predicate's verdict |
| GlobalChecker.Check | commons/src/main/java/org/restheart/plugins/mongodb/GlobalChecker.java:70-81 | false whenever the predicate does not resolve; otherwise the checker's verdict with the stored args and confArgs |
| GlobalChecker.GetPhase | commons/src/main/java/org/restheart/plugins/mongodb/GlobalChecker.java:99-101 | the checker's phase |
| GlobalChecker.DoesSupportRequests | commons/src/main/java/org/restheart/plugins/mongodb/GlobalChecker.java:108-110 | the checker's support test |
| GlobalChecker.UnresolvedIgnoresChecker | commons/src/main/java/org/restheart/plugins/mongodb/GlobalChecker.java:75 | when the predicate does not resolve, any checker gives false: the checker is not consulted |
| GlobalChecker.ResolvedCheckDelegates | commons/src/main/java/org/restheart/plugins/mongodb/GlobalChecker.java:76-80 | when the predicate resolves, check is the checker's verdict and does not depend on skipNotSupported |
| GlobalChecker.DelegationIgnoresGate | commons/src/main/java/org/restheart/plugins/mongodb/GlobalChecker.java:99-110 | phase and support test do not depend on the predicate, the flag or the arguments |
| GlobalChecker.ConstructorKeepsArguments | commons/src/main/java/org/restheart/plugins/mongodb/GlobalChecker.java:36-61 | each field holds its constructor argument: the destructor law of the datatype, standing for the getters |
| GraphQLService.IsContentTypeGraphQL | graphql/src/main/java/org/restheart/graphql/GraphQLService.java:99-103 | accepted exactly when the content type is present, starts with application/graphql, and either ends there or continues with ';' |
| GraphQLService.Check | graphql/src/main/java/org/restheart/graphql/GraphQLService.java:93-97 | accepted exactly for a POST with content and a GraphQL content type; no content or no content type is rejected |
| GraphQLService.ContentTypeAccepted | graphql/src/main/java/org/restheart/graphql/GraphQLService.java:99-103 | a null content type is rejected, as is one not starting with application/graphql; "application/graphql;charset=utf-8" is accepted and "application/graphqlx" is not |
| GraphQLService.AppName | graphql/src/main/java/org/restheart/graphql/GraphQLService.java:48-49 | present exactly when the split path has an element 2, and then it is that element |
| GraphQLService.AppNameOfPath | graphql/src/main/java/org/restheart/graphql/GraphQLService.java:48-49 | "/" + service + "/" + app, optionally followed by "/..." segments, names app |
| GraphQLService.ServiceRootHasNoApp | graphql/src/main/java/org/restheart/graphql/GraphQLService.java:48-49 | "/graphql" has no element 2, so the index throws |
| GraphQLService.ErrorText | graphql/src/main/java/org/restheart/graphql/GraphQLService.java:78-79 | empty for no messages; otherwise it ends with ';' and has at least two characters per message when none is empty |
| GraphQLService.ErrorTextAppend | graphql/src/main/java/org/restheart/graphql/GraphQLService.java:78-79 | the error text of two message lists joined is the two texts joined |
| GraphQLService.ErrorTextSplits | graphql/src/main/java/org/restheart/graphql/GraphQLService.java:78-79 | splitting the error text on ';' gives back the messages when none is empty or holds a ';' |
| GraphQLService.BuildErrorMessage | graphql/src/main/java/org/restheart/graphql/GraphQLService.java:78-79 | the loop builds each message followed by ";", in order |
| GraphQLService.Decide | graphql/src/main/java/org/restheart/graphql/GraphQLService.java:35-91 | 500 when the client is missing, before anything else; 400 "Bad Request" when check fails; a throw when the path has no app name; 400 for an unknown app; the engine is rebuilt exactly when the app is known and the body parses; a malformed body throws; execution errors give 400 with the joined messages and no body, whatever data is present; without errors the reply completes with no error and the result as body exactly when data is present |
| GraphQLService.RejectedBeforePath | graphql/src/main/java/org/restheart/graphql/GraphQLService.java:42-45 | a request failing check is answered before the path is looked at |
| GraphQLService.ErrorsSuppressContent | graphql/src/main/java/org/restheart/graphql/GraphQLService.java:77-84 | execution errors give an error response and no body, whatever data is present |
| GraphQLService.GraphQLService.Handle | graphql/src/main/java/org/restheart/graphql/GraphQLService.java:35-91 | the outcome, the rebuilt schema, the error status and message, and the body are those Decide gives; nothing else on the response changes |
| Bson.Get | security/src/main/java/org/restheart/security/plugins/authorizers/AclPermission.java:83-85 | present exactly when the key is in the document, and then its value |
| Bson.WrapInt32 | security/src/main/java/org/restheart/security/plugins/authorizers/AclPermission.java:117 | the identity on int range, and congruent to its argument modulo 2^32 |
| Bson.WrapInt64 | security/src/main/java/org/restheart/security/plugins/authorizers/AclPermission.java:277 | the identity on long range, and congruent to its argument modulo 2^64 |
| Bson.SaturateInt32 | security/src/main/java/org/restheart/security/plugins/authorizers/AclPermission.java:117 | the identity on int range, saturating at either end |
| Bson.IntValue | security/src/main/java/org/restheart/security/plugins/authorizers/AclPermission.java:117 | an int32 is kept; an int64 keeps its value in int range and is congruent to it modulo 2^32; a double keeps its value in int range and saturates outside it |
| Text.ReplaceAll | security/src/main/java/org/restheart/security/plugins/authorizers/AclPermission.java:262-278 | text shorter than the word is unchanged, and a replacement of the word's length keeps the length |
| Text.ReplaceAllIdentity | security/src/main/java/org/restheart/security/plugins/authorizers/AclPermission.java:262 | replacing a word that does not occur, or a word by itself, changes nothing |
| Text.ReplaceAllFirstMatch | security/src/main/java/org/restheart/security/plugins/authorizers/AclPermission.java:262 | an occurrence after text without the word's first character is the first one replaced |
| Text.ReplaceAllRemoves | security/src/main/java/org/restheart/security/plugins/authorizers/AclPermission.java:278 | no occurrence of the word is left when the replacement shares no character with it |
| Text.ReplaceAllKeepsAbsent | security/src/main/java/org/restheart/security/plugins/authorizers/AclPermission.java:271-278 | the replacement creates no occurrence of a word none of whose characters is in the replacement text |
| Text.ReplaceAllKeepsContained | security/src/main/java/org/restheart/security/plugins/authorizers/AclPermission.java:271-278 | an occurrence of an unrelated word survives the replacement of another |
| Text.NatToString | security/src/main/java/org/restheart/security/plugins/authorizers/AclPermission.java:278 | a non-empty string of decimal digits |
| Text.IntToString | security/src/main/java/org/restheart/security/plugins/authorizers/AclPermission.java:278 | digits with a leading '-' exactly for a negative number |
| Text.NatToStringRoundTrip | security/src/main/java/org/restheart/security/plugins/authorizers/AclPermission.java:278 | the digits of a natural number denote it |
| Text.IntToStringRoundTrip | security/src/main/java/org/restheart/security/plugins/authorizers/AclPermission.java:278 | the decimal text of an integer is read back as the same integer |
| Text.Split | graphql/src/main/java/org/restheart/graphql/GraphQLService.java:48 | a string without the separator is one piece; no piece holds the separator; a split that found the separator does not end with an empty piece |
| Text.Pieces | graphql/src/main/java/org/restheart/graphql/GraphQLService.java:48 | at least one piece, none holding the separator |
| Text.DropTrailingEmpty | graphql/src/main/java/org/restheart/graphql/GraphQLService.java:48 | a prefix of the pieces that ends in a non-empty piece, dropping only empty ones |
| Text.PiecesAfterWord | graphql/src/main/java/org/restheart/graphql/GraphQLService.java:48 | a word without the separator, then the separator, is the first piece |

## Left out

- I/O, logging and the debug branch on one hard-coded `_id` are not modelled. The dereference of `_id` in that branch is modelled: a document without `_id` fails with `MissingId`.
- Evaluating an Undertow predicate is not modelled. A parsed predicate is kept as its text, and its verdict on a request is a parameter.
- `MongoPermissions.from` and the default restriction are parameters. For a document they cannot fail; for a map they may.
- The JSON parse of the interpolated filter is not modelled. Interpolation returns the text, and `BsonDocument.toString` is taken to be the filter text itself.
- The roles text is what `Set.toString` renders, given as a string.
- AclPermission.ArgsRoles: a null or non-string `role`, or non-string elements of `roles`, fail in the model. The Java code would store them unchecked, because of erased generic casts.
- AclPermission.ArgsPriority: a null priority fails. The Java code unboxes it into an int and throws. The document constructor would default it instead.
- AclPermission.DocumentPriority: a double is carried already rounded toward zero. Floating point beyond that is not modelled.
- IntValue: a Decimal128 has no int value in the model. It is not a number for `isNumber`, so a Decimal128 priority gets the lowest priority.
- Choosing among permissions by priority, and interceptor scheduling and ordering, live in classes that are not part of this model.
- PatchCollectionHandler.Persist: sendWarnings is not part of this model. Its effect on the status is taken from the comment at PatchCollectionHandler.java:189. The body it writes is only a recorded effect.
- The relationship, representation-transformer and checker parsers are parameters that return the exception's message. The keys "rels", "rts" and "checkers" are the names those classes use.
- Undertow's handler chain is not modelled. The next handler is a flag, and calling it is a recorded effect, as is the cache invalidation.
- GraphQLService: `init` (configuration arguments and the client singleton) is not modelled. Whether a client was obtained is a constructor argument.
- GraphQLService.Decide: null error messages, and a null error list from the engine, are not modelled. A missing or non-string `query` and a malformed JSON body are one throwing case.
- GraphQLService: building a GraphQL engine from a schema is modelled as storing the schema. Executing a query and its conversion to a BSON document are parameters.
- AppDefinitionLoader, the relationships integration test and the transaction activator are not part of this model.
