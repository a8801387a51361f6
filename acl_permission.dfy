/** An ACL permission record: which roles it applies to, the predicate a
    request must satisfy, its priority (a lesser value is a higher priority)
    and the MongoDB restrictions it attaches. Records are built from a stored
    document or from a configuration map; either build validates the input and
    fails with an Error where the Java constructor throws. */
module AclPermission {
  import opened Wrappers
  import opened Bson
  import opened Text

  /** A predicate accepted by the predicate parser, kept as its source text.
      What it means for a request is given by the caller as a function. */
  datatype Predicate = Predicate(expression: string)

  /** The restrictions of the `mongo` section. Only the flag the whitelist
      interceptor reads is spelled out; the rest is kept as parsed. */
  datatype MongoPermissions = MongoPermissions(whitelistManagementRequests: bool, settings: Document)

  datatype Permission = Permission(
    id: Option<BsonValue>,
    roles: set<string>,
    condition: Option<Predicate>,
    priority: Int32,
    mongoPermissions: Option<MongoPermissions>)

  /** Why a permission could not be built: one constructor per throw site. */
  datatype Error =
    | RolesNotStringArray
    | PredicateNotString
    | InvalidPredicate(expression: string)
    | MissingId
    | MongoNotDocument
    | BothRoleAndRoles
    | NoRoleOrRoles
    | RoleNotString
    | RolesNotStringList
    | MissingPredicate
    | NullPredicate
    | PriorityNull
    | PriorityNotInteger
    | MongoNotMap
    | InvalidMongoArgs

  /** The collaborators the constructors call: the predicate parser, the two
      MongoPermissions.from overloads and the default restriction. */
  datatype Loaders = Loaders(
    parses: string -> bool,
    mongoFromDocument: Document -> MongoPermissions,
    mongoFromArgs: Option<map<string, ConfValue>> -> Option<MongoPermissions>,
    defaultMongo: MongoPermissions)

  /** Integer.MAX_VALUE: the lowest priority, given to a record without one. */
  const LowestPriority: Int32 := IntMaxValue

  /** The constructor taking every part directly; a null restriction document
      stands for the default restriction. */
  function NewPermission(id: Option<BsonValue>, roles: set<string>, condition: Option<Predicate>,
                         mongo: Option<Document>, priority: Int32, env: Loaders): (r: Permission)
    ensures r.id == id && r.roles == roles && r.condition == condition && r.priority == priority
    ensures r.mongoPermissions.Some?
    ensures mongo.None? ==> r.mongoPermissions == Some(env.defaultMongo)
    ensures mongo.Some? ==> r.mongoPermissions == Some(env.mongoFromDocument(mongo.value))
  {
    var m := if mongo.None? then env.defaultMongo else env.mongoFromDocument(mongo.value);
    Permission(id, roles, condition, priority, Some(m))
  }

  // ---------------------------------------------------------------------
  // Building a permission from a stored document

  /** `roles` is a non-empty array whose every element is a string. */
  predicate RolesWellFormed(v: Option<BsonValue>) {
    && v.Some? && v.value.BArray? && |v.value.items| > 0
    && forall k :: 0 <= k < |v.value.items| ==> v.value.items[k].BString?
  }

  /** The strings of a roles array, duplicates collapsed. */
  function RoleSet(items: seq<BsonValue>): (r: set<string>)
    ensures forall x :: x in r <==> BString(x) in items
  {
    set v | v in items && v.BString? :: v.str
  }

  /** A missing, null or non-numeric priority is the lowest priority;
      otherwise the number's int value is kept. */
  function DocumentPriority(v: Option<BsonValue>): (r: Int32)
    ensures (v.None? || !IsNumber(v.value)) ==> r == LowestPriority
    ensures v.Some? && v.value.BInt32? ==> r == v.value.i32
    ensures v.Some? && v.value == BDecimal128 ==> r == LowestPriority
    ensures v.Some? && IsNumber(v.value) ==> r == IntValue(v.value)
  {
    if v.None? || v.value.BNull? || !IsNumber(v.value) then LowestPriority else IntValue(v.value)
  }

  predicate PredicateIsString(v: Option<BsonValue>) {
    v.Some? && v.value.BString?
  }

  function FromDocument(doc: Document, env: Loaders): (r: Result<Permission, Error>)
    ensures !RolesWellFormed(Get(doc, "roles")) ==> r == Failure(RolesNotStringArray)
    ensures (RolesWellFormed(Get(doc, "roles")) && !PredicateIsString(Get(doc, "predicate")))
              ==> r == Failure(PredicateNotString)
    ensures (RolesWellFormed(Get(doc, "roles")) && PredicateIsString(Get(doc, "predicate"))
             && !env.parses(doc["predicate"].str))
              ==> r == Failure(InvalidPredicate(doc["predicate"].str))
    ensures r.Success? <==>
              && RolesWellFormed(Get(doc, "roles"))
              && PredicateIsString(Get(doc, "predicate")) && env.parses(doc["predicate"].str)
              && "_id" in doc
              && ("mongo" !in doc || doc["mongo"].BDocument?)
    ensures r.Success? ==>
              && r.value.id == Some(doc["_id"])
              && (forall x :: x in r.value.roles <==> BString(x) in doc["roles"].items)
              && r.value.condition == Some(Predicate(doc["predicate"].str))
              && r.value.priority == DocumentPriority(Get(doc, "priority"))
              && r.value.mongoPermissions ==
                   Some(if "mongo" in doc then env.mongoFromDocument(doc["mongo"].fields) else env.defaultMongo)
  {
    var rolesValue := Get(doc, "roles");
    if !RolesWellFormed(rolesValue) then Failure(RolesNotStringArray)
    else
      var roles := RoleSet(rolesValue.value.items);
      var predicateValue := Get(doc, "predicate");
      if !PredicateIsString(predicateValue) then Failure(PredicateNotString)
      else if !env.parses(predicateValue.value.str) then Failure(InvalidPredicate(predicateValue.value.str))
      else
        var priority := DocumentPriority(Get(doc, "priority"));
        // the debug check on the identifier dereferences `_id`
        if "_id" !in doc then Failure(MissingId)
        else
          match Get(doc, "mongo")
          case None =>
            Success(Permission(Some(doc["_id"]), roles, Some(Predicate(predicateValue.value.str)), priority,
                               Some(env.defaultMongo)))
          case Some(BDocument(m)) =>
            Success(Permission(Some(doc["_id"]), roles, Some(Predicate(predicateValue.value.str)), priority,
                               Some(env.mongoFromDocument(m))))
          case Some(_) => Failure(MongoNotDocument)
  }

  // ---------------------------------------------------------------------
  // Building a permission from a configuration map

  /** The roles named by `role` or `roles`, exactly one of which is given. */
  function ArgsRoles(args: map<string, ConfValue>): (r: Result<set<string>, Error>)
    ensures "role" in args && "roles" in args ==> r == Failure(BothRoleAndRoles)
    ensures "role" !in args && "roles" !in args ==> r == Failure(NoRoleOrRoles)
    ensures "role" in args && "roles" !in args ==>
              r == (if args["role"].CString? then Success({args["role"].str}) else Failure(RoleNotString))
    ensures "roles" in args && "role" !in args ==>
              (r.Success? <==> (args["roles"].CList?
                                && forall k :: 0 <= k < |args["roles"].elems| ==> args["roles"].elems[k].CString?))
    ensures "roles" in args && "role" !in args && r.Success? ==>
              args["roles"].CList? && forall x :: x in r.value <==> CString(x) in args["roles"].elems
  {
    if "role" in args && "roles" in args then Failure(BothRoleAndRoles)
    else if "role" in args then
      match args["role"]
      case CString(s) => Success({s})
      case _ => Failure(RoleNotString)
    else if "roles" in args then
      match args["roles"]
      case CList(elems) =>
        if forall k :: 0 <= k < |elems| ==> elems[k].CString?
        then Success(set v | v in elems && v.CString? :: v.str)
        else Failure(RolesNotStringList)
      case _ => Failure(RolesNotStringList)
    else Failure(NoRoleOrRoles)
  }

  /** The `priority` entry: the lowest priority when absent, otherwise it
      must be an Integer. */
  function ArgsPriority(args: map<string, ConfValue>): (r: Result<Int32, Error>)
    ensures "priority" !in args ==> r == Success(LowestPriority)
    ensures "priority" in args && args["priority"].CInteger? ==> r == Success(args["priority"].int32)
    ensures "priority" in args && !args["priority"].CInteger? ==> r.Failure?
  {
    if "priority" !in args then Success(LowestPriority)
    else
      match args["priority"]
      case CInteger(v) => Success(v)
      case CNull => Failure(PriorityNull)
      case _ => Failure(PriorityNotInteger)
  }

  /** The `mongo` entry: the default restriction when absent, otherwise a
      map (or null) handed to MongoPermissions.from. */
  function ArgsMongo(args: map<string, ConfValue>, env: Loaders): (r: Result<MongoPermissions, Error>)
    ensures "mongo" !in args ==> r == Success(env.defaultMongo)
    ensures "mongo" in args && args["mongo"].CMap? ==>
              r == (match env.mongoFromArgs(Some(args["mongo"].entries))
                    case Some(m) => Success(m)
                    case None => Failure(InvalidMongoArgs))
    ensures "mongo" in args && args["mongo"].CNull? ==>
              r == (match env.mongoFromArgs(None)
                    case Some(m) => Success(m)
                    case None => Failure(InvalidMongoArgs))
    ensures "mongo" in args && !(args["mongo"].CMap? || args["mongo"].CNull?) ==> r == Failure(MongoNotMap)
  {
    if "mongo" !in args then Success(env.defaultMongo)
    else if !(args["mongo"].CMap? || args["mongo"].CNull?) then Failure(MongoNotMap)
    else
      var given := if args["mongo"].CMap? then Some(args["mongo"].entries) else None;
      match env.mongoFromArgs(given)
      case Some(m) => Success(m)
      case None => Failure(InvalidMongoArgs)
  }

  function FromArgs(args: map<string, ConfValue>, env: Loaders): (r: Result<Permission, Error>)
    ensures ArgsRoles(args).Failure? ==> r == Failure(ArgsRoles(args).error)
    ensures ArgsRoles(args).Success? && "predicate" !in args ==> r == Failure(MissingPredicate)
    ensures ArgsRoles(args).Success? && "predicate" in args && args["predicate"].CNull? ==> r == Failure(NullPredicate)
    ensures (ArgsRoles(args).Success? && "predicate" in args && args["predicate"].CString?
             && !env.parses(args["predicate"].str))
              ==> r == Failure(InvalidPredicate(args["predicate"].str))
    ensures r.Success? <==>
              && ArgsRoles(args).Success?
              && "predicate" in args && args["predicate"].CString? && env.parses(args["predicate"].str)
              && ArgsPriority(args).Success? && ArgsMongo(args, env).Success?
    ensures r.Success? ==>
              && r.value.id.None?
              && r.value.roles == ArgsRoles(args).value
              && r.value.condition == Some(Predicate(args["predicate"].str))
              && r.value.priority == ArgsPriority(args).value
              && r.value.mongoPermissions == Some(ArgsMongo(args, env).value)
  {
    var roles :- ArgsRoles(args);
    if "predicate" !in args then Failure(MissingPredicate)
    else
      match args["predicate"]
      case CNull => Failure(NullPredicate)
      case CString(text) =>
        if !env.parses(text) then Failure(InvalidPredicate(text))
        else
          var priority :- ArgsPriority(args);
          var mongo :- ArgsMongo(args, env);
          Success(Permission(None, roles, Some(Predicate(text)), priority, Some(mongo)))
      case _ => Failure(PredicateNotString)
  }

  // ---------------------------------------------------------------------
  // Evaluating a permission

  /** A permission without a predicate resolves to false; otherwise to what
      its predicate says of the request (`holds`). */
  function Resolve(p: Permission, holds: Predicate -> bool): (r: bool)
    ensures p.condition.None? ==> !r
    ensures p.condition.Some? ==> r == holds(p.condition.value)
  {
    p.condition.Some? && holds(p.condition.value)
  }

  /** A record loaded from a document has a non-empty role set, a predicate
      and a restriction, and resolves exactly as its predicate text. */
  lemma LoadedDocumentPermission(doc: Document, env: Loaders, holds: Predicate -> bool)
    requires FromDocument(doc, env).Success?
    ensures var p := FromDocument(doc, env).value;
            && p.roles != {}
            && p.mongoPermissions.Some?
            && Resolve(p, holds) == holds(Predicate(doc["predicate"].str))
  {
    var items := doc["roles"].items;
    assert items[0].BString? && BString(items[0].str) in items;
  }

  /** A record loaded from a configuration map has a predicate and a
      restriction, resolves exactly as its predicate text, and holds just
      the role of `role` when that key is used. */
  lemma LoadedArgsPermission(args: map<string, ConfValue>, env: Loaders, holds: Predicate -> bool)
    requires FromArgs(args, env).Success?
    ensures var p := FromArgs(args, env).value;
            && p.mongoPermissions.Some?
            && Resolve(p, holds) == holds(Predicate(args["predicate"].str))
            && ("role" in args ==> p.roles == {args["role"].str})
  {
  }

  /** A record built from a document is the one the direct constructor builds
      from its parts: the restriction document, when present, goes through
      the same MongoPermissions.from. */
  lemma FromDocumentIsDirect(doc: Document, env: Loaders)
    requires FromDocument(doc, env).Success?
    ensures FromDocument(doc, env).value ==
              NewPermission(Some(doc["_id"]), RoleSet(doc["roles"].items), Some(Predicate(doc["predicate"].str)),
                            if "mongo" in doc then Some(doc["mongo"].fields) else None,
                            DocumentPriority(Get(doc, "priority")), env)
  {
    var p := FromDocument(doc, env).value;
    var q := NewPermission(Some(doc["_id"]), RoleSet(doc["roles"].items), Some(Predicate(doc["predicate"].str)),
                           if "mongo" in doc then Some(doc["mongo"].fields) else None,
                           DocumentPriority(Get(doc, "priority")), env);
    assert p.roles == q.roles;
  }

  /** Unlike the document form, the map form accepts an empty `roles` list. */
  lemma ArgsAcceptEmptyRoles(env: Loaders)
    requires env.parses("path-prefix('/')")
    ensures var r := FromArgs(map["roles" := CList([]), "predicate" := CString("path-prefix('/')")], env);
            r.Success? && r.value.roles == {}
  {
    var args := map["roles" := CList([]), "predicate" := CString("path-prefix('/')")];
    assert "role" !in args && "roles" in args && args["roles"] == CList([]);
    assert ArgsRoles(args).Success?;
    forall x ensures x !in ArgsRoles(args).value {
      assert CString(x) !in args["roles"].elems;
    }
  }

  // ---------------------------------------------------------------------
  // Filter variable interpolation

  /** What the security context says of the authenticated account: its roles
      rendered by Set.toString, or null. */
  datatype Account = Account(roles: Option<string>)
  datatype SecurityContext = SecurityContext(authenticatedAccount: Option<Account>)

  /** The text `%ROLES` becomes: the account's roles, or `[]` when there is
      no security context, no account or no roles. */
  function RolesText(sc: Option<SecurityContext>): (r: string)
    ensures (sc.None? || sc.value.authenticatedAccount.None? || sc.value.authenticatedAccount.value.roles.None?)
              ==> r == "[]"
    ensures (sc.Some? && sc.value.authenticatedAccount.Some? && sc.value.authenticatedAccount.value.roles.Some?)
              ==> r == sc.value.authenticatedAccount.value.roles.value
  {
    if sc.Some? && sc.value.authenticatedAccount.Some? && sc.value.authenticatedAccount.value.roles.Some?
    then sc.value.authenticatedAccount.value.roles.value
    else "[]"
  }

  /** The text `%NOW` becomes: a date literal of the epoch second times 1000,
      computed in a Java long. */
  function NowText(epochSecond: Int64): (r: string)
    ensures -9_223_372_036_854_775 <= epochSecond <= 9_223_372_036_854_775 ==>
              r == "{'$date':" + IntToString(epochSecond * 1000) + "}"
  {
    "{'$date':" + IntToString(WrapInt64(epochSecond * 1000)) + "}"
  }

  /** The filter text after the three substitutions, in the source's order. */
  function Interpolate(text: string, remoteUser: Option<string>, sc: Option<SecurityContext>, epochSecond: Int64): (r: string)
    ensures !Contains(text, "%USER") && !Contains(text, "%ROLES") && !Contains(text, "%NOW") ==> r == text
  {
    var withUser := if remoteUser.Some? then ReplaceAll(text, "%USER", remoteUser.value) else text;
    var withRoles := ReplaceAll(withUser, "%ROLES", RolesText(sc));
    ReplaceAllIdentity(text, "%USER", if remoteUser.Some? then remoteUser.value else "");
    ReplaceAllIdentity(withUser, "%ROLES", RolesText(sc));
    ReplaceAllIdentity(withRoles, "%NOW", NowText(epochSecond));
    ReplaceAll(withRoles, "%NOW", NowText(epochSecond))
  }

  lemma NoOccurrenceWithoutFirstChar(s: string, p: string)
    requires |p| > 0 && p[0] !in s
    ensures !Contains(s, p)
  {
    forall i: nat | i <= |s| ensures !OccursAt(s, p, i) {
      if i + |p| <= |s| {
        assert s[i..i + |p|][0] == s[i];
      }
    }
  }

  /** The date literal is made only of its frame, digits and a minus sign,
      so it holds no character of a word made of other characters. */
  lemma NowTextAvoids(epochSecond: Int64, w: string)
    requires forall k :: 0 <= k < |w| ==> w[k] !in "{'$date':}" && !IsDigit(w[k]) && w[k] != '-'
    ensures forall k :: 0 <= k < |w| ==> w[k] !in NowText(epochSecond)
  {
    var digits := IntToString(WrapInt64(epochSecond * 1000));
    var rep := NowText(epochSecond);
    assert rep == "{'$date':" + digits + "}";
    forall k | 0 <= k < |w| ensures w[k] !in rep {
      forall j | 0 <= j < |rep| ensures rep[j] != w[k] {
        if 9 <= j < 9 + |digits| {
          assert rep[j] == digits[j - 9];
        } else if j < 9 {
          assert rep[j] == "{'$date':"[j];
        } else {
          assert rep[j] == '}';
        }
      }
    }
  }

  /** The number in the date literal is the epoch second times 1000, as a
      Java long. */
  lemma NowTextValue(epochSecond: Int64)
    ensures var r := NowText(epochSecond);
            |r| >= 10 && r == "{'$date':" + r[9..|r| - 1] + "}"
            && DecimalValue(r[9..|r| - 1]) == WrapInt64(epochSecond * 1000)
  {
    var digits := IntToString(WrapInt64(epochSecond * 1000));
    var r := NowText(epochSecond);
    assert r[9..|r| - 1] == digits;
    IntToStringRoundTrip(WrapInt64(epochSecond * 1000));
  }

  /** No `%NOW` is left after interpolation: the date literal contains none
      of its characters. */
  lemma {:induction false} InterpolateLeavesNoNow(text: string, remoteUser: Option<string>,
                                                 sc: Option<SecurityContext>, epochSecond: Int64)
    ensures !Contains(Interpolate(text, remoteUser, sc, epochSecond), "%NOW")
  {
    NowTextAvoids(epochSecond, "%NOW");
    var withUser := if remoteUser.Some? then ReplaceAll(text, "%USER", remoteUser.value) else text;
    ReplaceAllRemoves(ReplaceAll(withUser, "%ROLES", RolesText(sc)), "%NOW", NowText(epochSecond));
  }

  /** Without an account that has roles, no `%ROLES` is left: each becomes
      `[]`, and the `%NOW` step cannot make a new one. */
  lemma {:induction false} InterpolateLeavesNoRolesWithoutAccount(text: string, remoteUser: Option<string>,
                                                                 sc: Option<SecurityContext>, epochSecond: Int64)
    requires sc.None? || sc.value.authenticatedAccount.None? || sc.value.authenticatedAccount.value.roles.None?
    ensures !Contains(Interpolate(text, remoteUser, sc, epochSecond), "%ROLES")
  {
    var withUser := if remoteUser.Some? then ReplaceAll(text, "%USER", remoteUser.value) else text;
    assert RolesText(sc) == "[]";
    ReplaceAllRemoves(withUser, "%ROLES", "[]");
    NowTextAvoids(epochSecond, "%ROLES");
    ReplaceAllKeepsAbsent(ReplaceAll(withUser, "%ROLES", "[]"), "%NOW", NowText(epochSecond), "%ROLES");
  }

  /** No `%ROLES` is left when the roles text replacing it is non-empty and
      holds no character of `%ROLES`, whatever the text and the user. */
  lemma {:induction false} InterpolateLeavesNoRoles(text: string, remoteUser: Option<string>,
                                                   sc: Option<SecurityContext>, epochSecond: Int64)
    requires |RolesText(sc)| > 0 && forall k :: 0 <= k < |"%ROLES"| ==> "%ROLES"[k] !in RolesText(sc)
    ensures !Contains(Interpolate(text, remoteUser, sc, epochSecond), "%ROLES")
  {
    var withUser := if remoteUser.Some? then ReplaceAll(text, "%USER", remoteUser.value) else text;
    ReplaceAllRemoves(withUser, "%ROLES", RolesText(sc));
    NowTextAvoids(epochSecond, "%ROLES");
    ReplaceAllKeepsAbsent(ReplaceAll(withUser, "%ROLES", RolesText(sc)), "%NOW", NowText(epochSecond), "%ROLES");
  }

  /** With a remote user, no `%USER` is left, provided neither the user name
      nor the roles text (both non-empty) holds a character of `%USER`. */
  lemma {:induction false} InterpolateLeavesNoUser(text: string, user: string,
                                                  sc: Option<SecurityContext>, epochSecond: Int64)
    requires |user| > 0 && forall k :: 0 <= k < |"%USER"| ==> "%USER"[k] !in user
    requires |RolesText(sc)| > 0 && forall k :: 0 <= k < |"%USER"| ==> "%USER"[k] !in RolesText(sc)
    ensures !Contains(Interpolate(text, Some(user), sc, epochSecond), "%USER")
  {
    var withUser := ReplaceAll(text, "%USER", user);
    ReplaceAllRemoves(text, "%USER", user);
    ReplaceAllKeepsAbsent(withUser, "%ROLES", RolesText(sc), "%USER");
    NowTextAvoids(epochSecond, "%USER");
    ReplaceAllKeepsAbsent(ReplaceAll(withUser, "%ROLES", RolesText(sc)), "%NOW", NowText(epochSecond), "%USER");
  }

  /** Without a remote user, a `%USER` in the filter is left as it is. */
  lemma {:induction false} InterpolateKeepsUserWithoutPrincipal(text: string, sc: Option<SecurityContext>, epochSecond: Int64)
    requires Contains(text, "%USER")
    ensures Contains(Interpolate(text, None, sc, epochSecond), "%USER")
  {
    assert "%USER"[1..] == "USER" && "%ROLES"[1..] == "ROLES" && "%NOW"[1..] == "NOW";
    assert !StartsWith("%USER", "%ROLES") by { assert "%USER"[..6 - 1][1] != "%ROLES"[1]; }
    assert !StartsWith("%ROLES", "%USER") by { assert "%ROLES"[..5][1] != "%USER"[1]; }
    assert !StartsWith("%USER", "%NOW") by { assert "%USER"[..4][1] != "%NOW"[1]; }
    assert !StartsWith("%NOW", "%USER");
    ReplaceAllKeepsContained(text, "%ROLES", RolesText(sc), "%USER");
    var withRoles := ReplaceAll(text, "%ROLES", RolesText(sc));
    ReplaceAllKeepsContained(withRoles, "%NOW", NowText(epochSecond), "%USER");
  }

  /** The user name is substituted for `%USER`:
      {"owner":"%USER"} for alice becomes {"owner":"alice"}. */
  lemma InterpolateOwnerExample(sc: Option<SecurityContext>, epochSecond: Int64)
    ensures Interpolate("{\"owner\":\"%USER\"}", Some("alice"), sc, epochSecond) == "{\"owner\":\"alice\"}"
  {
    var head, tail := "{\"owner\":\"", "\"}";
    assert "{\"owner\":\"%USER\"}" == head + "%USER" + tail;
    ReplaceAllFirstMatch(head, tail, "%USER", "alice");
    NoOccurrenceWithoutFirstChar(tail, "%USER");
    ReplaceAllIdentity(tail, "%USER", "alice");
    var s := "{\"owner\":\"alice\"}";
    assert head + "alice" + tail == s;
    NoOccurrenceWithoutFirstChar(s, "%ROLES");
    ReplaceAllIdentity(s, "%ROLES", RolesText(sc));
    NoOccurrenceWithoutFirstChar(s, "%NOW");
    ReplaceAllIdentity(s, "%NOW", NowText(epochSecond));
  }

  /** Without an authenticated account `%ROLES` becomes `[]`. */
  lemma InterpolateRolesWithoutAccount(epochSecond: Int64)
    ensures Interpolate("{\"roles\":%ROLES}", None, None, epochSecond) == "{\"roles\":[]}"
  {
    var head, tail := "{\"roles\":", "}";
    assert "{\"roles\":%ROLES}" == head + "%ROLES" + tail;
    ReplaceAllFirstMatch(head, tail, "%ROLES", "[]");
    NoOccurrenceWithoutFirstChar(tail, "%ROLES");
    ReplaceAllIdentity(tail, "%ROLES", "[]");
    var s := "{\"roles\":[]}";
    assert head + "[]" + tail == s;
    NoOccurrenceWithoutFirstChar(s, "%NOW");
    ReplaceAllIdentity(s, "%NOW", NowText(epochSecond));
  }

  /** The static helper: a null filter gives null; otherwise the text of the
      filter with %USER, %ROLES and %NOW replaced one after the other. The
      JSON parse of the result is left to the caller. */
  method InterpolateFilterVars(filter: Option<string>, remoteUser: Option<string>,
                              sc: Option<SecurityContext>, epochSecond: Int64) returns (r: Option<string>)
    ensures r.None? <==> filter.None?
    ensures r.Some? ==> r.value == Interpolate(filter.value, remoteUser, sc, epochSecond)
    ensures r.Some? ==> !Contains(r.value, "%NOW")
    ensures (r.Some? && !Contains(filter.value, "%USER") && !Contains(filter.value, "%ROLES")
             && !Contains(filter.value, "%NOW"))
              ==> r == filter
  {
    if filter.None? {
      return None;
    }
    var ret := filter.value;
    if remoteUser.Some? {
      ret := ReplaceAll(ret, "%USER", remoteUser.value);
    }
    if sc.Some? && sc.value.authenticatedAccount.Some? && sc.value.authenticatedAccount.value.roles.Some? {
      ret := ReplaceAll(ret, "%ROLES", sc.value.authenticatedAccount.value.roles.value);
    } else {
      ret := ReplaceAll(ret, "%ROLES", "[]");
    }
    var now := WrapInt64(epochSecond * 1000);
    ret := ReplaceAll(ret, "%NOW", "{'$date':" + IntToString(now) + "}");
    InterpolateLeavesNoNow(filter.value, remoteUser, sc, epochSecond);
    r := Some(ret);
  }
}
