/** The extended-query bookkeeping of a Postgres wire protocol connection:
    the prepared statements and portals it stores by name, the result
    caches of suspended portals, which portals were bound from which
    statement, and the flag that skips messages until the next Sync after
    an error (section 55.2.3 of the PostgreSQL 15 documentation). What the
    session answers (parsing SQL, binding, executing, describing, writing
    to the socket) is carried by each message as its outcome. */
module PgProtocol {
  import opened Wrappers
  import opened PgProtocolStrings

  // The messages of the handlers' errors and panics.
  const UNNAMED_STATEMENT_NOT_FOUND: string := "unnamed prepare statement not found"
  const STATEMENT_NOT_FOUND: string := "prepare statement not found"
  const UNNAMED_PORTAL_NOT_FOUND: string := "unnamed portal not found"
  const PORTAL_NOT_FOUND: string := "portal not found"
  const UNKNOWN_TYPE_ID: string := "unknown type id"
  const DUPLICATED_STATEMENT: string := "Duplicated statement name"
  const ONLY_ONE_STATEMENT: string := "Only one statement is allowed in extended query mode"
  const DUPLICATED_PORTAL: string := "Duplicated portal name"
  const PORTAL_OVERRIDDEN: string := "Named portal never can be overridden."
  const UNWRAP_NONE: string := "called `Option::unwrap()` on a `None` value"
  const PORTAL_NOT_STORED: string := "assertion failed: portal_store.contains_key(&portal_name)"
  const PORTAL_MISSING: string := "assertion failed: portal exists"
  const BAD_KIND: string := "assertion failed: msg.kind == b'S' || msg.kind == b'P'"

  /** A statement or portal name, after `cstr_to_str`. The empty name is
      the unnamed statement or portal. */
  type Name = Bytes

  /** What the session handed back for a prepared statement, a portal, or
      an executed portal's pending results. */
  datatype PreparedStatement = PreparedStatement(handle: nat)
  datatype Portal = Portal(handle: nat)
  datatype ResultCache = ResultCache(handle: nat)

  datatype PsqlError =
    | ExtendedPrepareError(message: string)
    | ExtendedExecuteError(message: string)
    | Uncategorized(message: string)
    | IoError(message: string)
    /** A failed `assert!` or `unwrap`: the handler unwinds. */
    | Panic(message: string)

  /** The connection's extended-query fields. */
  datatype ConnState = ConnState(
    isTerminate: bool,
    ignoreUntilSync: bool,
    unnamedStatement: Option<PreparedStatement>,
    statements: map<Name, PreparedStatement>,
    unnamedPortal: Option<Portal>,
    portals: map<Name, Portal>,
    resultCache: map<Name, ResultCache>,
    dependency: map<Name, seq<Name>>)

  /** `PgProtocol::new`: nothing stored, nothing ignored. */
  function InitialState(): ConnState {
    ConnState(false, false, None, map[], None, map[], map[], map[])
  }

  /** The state a handler leaves and what it returns. A handler that fails
      may already have changed the state. */
  datatype Step = Step(state: ConnState, result: Result<(), PsqlError>)

  function Ok(st: ConnState): Step {
    Step(st, Success(()))
  }

  function Fail(st: ConnState, e: PsqlError): Step {
    Step(st, Failure(e))
  }

  predicate IsPanic(s: Step) {
    s.result.Failure? && s.result.error.Panic?
  }

  // ---------------------------------------------------------------------
  // Lookups

  predicate HasStatement(st: ConnState, name: Name) {
    if name == [] then st.unnamedStatement.Some? else name in st.statements
  }

  predicate HasPortal(st: ConnState, name: Name) {
    if name == [] then st.unnamedPortal.Some? else name in st.portals
  }

  /** `get_statement`: the empty name reads the unnamed slot, any other the
      store; a missing statement is an error. */
  function GetStatement(st: ConnState, name: Name): (r: Result<PreparedStatement, PsqlError>)
    ensures r.Success? <==> HasStatement(st, name)
    ensures r.Success? ==> r.value == (if name == [] then st.unnamedStatement.value else st.statements[name])
    ensures r.Failure? ==> r.error.Uncategorized?
  {
    if name == [] then
      if st.unnamedStatement.Some? then Success(st.unnamedStatement.value)
      else Failure(Uncategorized(UNNAMED_STATEMENT_NOT_FOUND))
    else if name in st.statements then Success(st.statements[name])
    else Failure(Uncategorized(STATEMENT_NOT_FOUND))
  }

  /** `get_portal`, likewise for portals. */
  function GetPortal(st: ConnState, name: Name): (r: Result<Portal, PsqlError>)
    ensures r.Success? <==> HasPortal(st, name)
    ensures r.Success? ==> r.value == (if name == [] then st.unnamedPortal.value else st.portals[name])
    ensures r.Failure? ==> r.error.Uncategorized?
  {
    if name == [] then
      if st.unnamedPortal.Some? then Success(st.unnamedPortal.value)
      else Failure(Uncategorized(UNNAMED_PORTAL_NOT_FOUND))
    else if name in st.portals then Success(st.portals[name])
    else Failure(Uncategorized(PORTAL_NOT_FOUND))
  }

  // ---------------------------------------------------------------------
  // Parse

  /** The parameter types of a Parse message: type id 0 leaves the type
      unspecified, an id the catalogue knows names that type, and any other
      id is an error. */
  function ParamTypes(typeIds: seq<int>, knownOids: set<int>): (r: Result<seq<Option<int>>, PsqlError>)
    ensures r.Success? <==> forall i | 0 <= i < |typeIds| :: typeIds[i] == 0 || typeIds[i] in knownOids
    ensures r.Success? ==> |r.value| == |typeIds|
    ensures r.Success? ==> forall i | 0 <= i < |typeIds| :: r.value[i] == (if typeIds[i] == 0 then None else Some(typeIds[i]))
    ensures r.Failure? ==> r.error.ExtendedPrepareError?
    decreases |typeIds|
  {
    if typeIds == [] then Success([])
    else
      var first: Result<Option<int>, PsqlError> :=
        if typeIds[0] == 0 then Success(None)
        else if typeIds[0] in knownOids then Success(Some(typeIds[0]))
        else Failure(ExtendedPrepareError(UNKNOWN_TYPE_ID));
      var rest := ParamTypes(typeIds[1..], knownOids);
      if first.Failure? then Failure(first.error)
      else if rest.Failure? then Failure(rest.error)
      else
        assert forall i | 1 <= i < |typeIds| :: typeIds[i] == typeIds[1..][i - 1];
        Success([first.value] + rest.value)
  }

  /** `inner_process_parse_msg`. `sqlStatements` is how many statements the
      SQL parser found (or its error) and `prepared` what the session's
      `parse` returned. Parsing into the unnamed slot first drops the old
      unnamed statement, even when the parse then fails. */
  function ParseStep(st: ConnState, name: Name, sqlStatements: Result<nat, string>, typeIds: seq<int>,
                     knownOids: set<int>, prepared: Result<PreparedStatement, string>): (s: Step)
    ensures s.state.isTerminate == st.isTerminate && s.state.ignoreUntilSync == st.ignoreUntilSync
    ensures s.state.portals == st.portals && s.state.unnamedPortal == st.unnamedPortal
    ensures s.state.resultCache == st.resultCache
    ensures s.state.dependency == st.dependency || s.state.dependency == st.dependency[name := []]
  {
    if name != [] && name in st.statements then Fail(st, ExtendedPrepareError(DUPLICATED_STATEMENT))
    else
      var st1 := if name == [] then st.(unnamedStatement := None) else st;
      if sqlStatements.Failure? then Fail(st1, ExtendedPrepareError(sqlStatements.error))
      else if sqlStatements.value > 1 then
        Fail(st1, ExtendedPrepareError(ONLY_ONE_STATEMENT))
      else if ParamTypes(typeIds, knownOids).Failure? then Fail(st1, ParamTypes(typeIds, knownOids).error)
      else if prepared.Failure? then Fail(st1, ExtendedPrepareError(prepared.error))
      else
        var st2 := if name == [] then st1.(unnamedStatement := Some(prepared.value))
                   else st1.(statements := st1.statements[name := prepared.value]);
        Ok(st2.(dependency := st2.dependency[name := []]))
  }

  /** Parse fails exactly on a stored named statement, a SQL error, more
      than one statement, an unknown type id or a session error; on success
      the name reads back the new statement, with no portal depending on
      it. A failed Parse of the unnamed statement leaves no unnamed
      statement; any other failure changes nothing. */
  lemma ParseStepSpec(st: ConnState, name: Name, sqlStatements: Result<nat, string>, typeIds: seq<int>,
                      knownOids: set<int>, prepared: Result<PreparedStatement, string>)
    ensures var s := ParseStep(st, name, sqlStatements, typeIds, knownOids, prepared);
      && (s.result.Failure? <==>
           || (name != [] && name in st.statements)
           || sqlStatements.Failure? || sqlStatements.value > 1
           || (exists i | 0 <= i < |typeIds| :: typeIds[i] != 0 && typeIds[i] !in knownOids)
           || prepared.Failure?)
      && (s.result.Success? ==>
           GetStatement(s.state, name) == Success(prepared.value) && s.state.dependency[name] == [])
      && (s.result.Failure? ==>
           s.state == (if name == [] then st.(unnamedStatement := None) else st))
  {
    var st1 := if name == [] then st.(unnamedStatement := None) else st;
    if name != [] && name in st.statements {
    } else if sqlStatements.Failure? || sqlStatements.value > 1 {
    } else if ParamTypes(typeIds, knownOids).Failure? {
      var i :| 0 <= i < |typeIds| && typeIds[i] != 0 && typeIds[i] !in knownOids;
    } else if prepared.Failure? {
    } else {
      var st2 := if name == [] then st1.(unnamedStatement := Some(prepared.value))
                 else st1.(statements := st1.statements[name := prepared.value]);
      assert ParseStep(st, name, sqlStatements, typeIds, knownOids, prepared) == Ok(st2.(dependency := st2.dependency[name := []]));
    }
  }

  // ---------------------------------------------------------------------
  // Bind

  /** `process_bind_msg`. `formats` is the outcome of reading the format
      codes and `bound` what the session's `bind` returned. Binding the
      unnamed portal replaces it and drops its cached results; a named
      portal is stored, and a cache already held under its name is a
      panic. The portal is then listed under its statement, and a
      statement with no list is a panic. */
  function BindStep(st: ConnState, statementName: Name, portalName: Name,
                    formats: Result<(), string>, bound: Result<Portal, string>): (s: Step)
    ensures s.state.isTerminate == st.isTerminate && s.state.ignoreUntilSync == st.ignoreUntilSync
    ensures s.state.statements == st.statements && s.state.unnamedStatement == st.unnamedStatement
  {
    if portalName in st.portals then Fail(st, Uncategorized(DUPLICATED_PORTAL))
    else if GetStatement(st, statementName).Failure? then Fail(st, GetStatement(st, statementName).error)
    else if formats.Failure? then Fail(st, Uncategorized(formats.error))
    else if bound.Failure? then Fail(st, Uncategorized(bound.error))
    else if portalName != [] && portalName in st.resultCache then
      Fail(st, Panic(PORTAL_OVERRIDDEN))
    else
      var st1 := StorePortal(st, portalName, bound.value);
      if statementName !in st1.dependency then Fail(st1, Panic(UNWRAP_NONE))
      else Ok(st1.(dependency := st1.dependency[statementName := st1.dependency[statementName] + [portalName]]))
  }

  /** Binding stores the portal: the unnamed one replaces the unnamed slot
      and loses its cached results, a named one goes into the store. */
  function StorePortal(st: ConnState, portalName: Name, portal: Portal): (r: ConnState)
    ensures r.isTerminate == st.isTerminate && r.ignoreUntilSync == st.ignoreUntilSync
    ensures r.statements == st.statements && r.unnamedStatement == st.unnamedStatement
    ensures r.dependency == st.dependency
  {
    if portalName == [] then st.(resultCache := st.resultCache - {portalName}, unnamedPortal := Some(portal))
    else st.(portals := st.portals[portalName := portal])
  }

  /** What every reachable state keeps: no named slot holds the empty name,
      every cached result belongs to a live portal, and every live
      statement has a dependency list. */
  predicate Inv(st: ConnState) {
    && [] !in st.statements && [] !in st.portals
    && (forall k | k in st.resultCache :: HasPortal(st, k))
    && (forall n | n in st.statements :: n in st.dependency)
    && (st.unnamedStatement.Some? ==> [] in st.dependency)
  }

  lemma InitialStateInv()
    ensures Inv(InitialState())
  {
  }

  /** Bind fails exactly on a stored portal name, a missing statement, a
      format error or a session error; on a reachable state neither of its
      assertions can fire. On success the portal reads back and is listed
      last under its statement, with no cached results. */
  lemma BindStepSpec(st: ConnState, statementName: Name, portalName: Name,
                     formats: Result<(), string>, bound: Result<Portal, string>)
    requires Inv(st)
    ensures var s := BindStep(st, statementName, portalName, formats, bound);
      && !IsPanic(s)
      && (s.result.Failure? <==>
           portalName in st.portals || !HasStatement(st, statementName) || formats.Failure? || bound.Failure?)
      && (s.result.Failure? ==> s.state == st)
      && (s.result.Success? ==>
           && GetPortal(s.state, portalName) == Success(bound.value)
           && s.state.dependency[statementName] == st.dependency[statementName] + [portalName]
           && portalName !in s.state.resultCache)
  {
  }

  // ---------------------------------------------------------------------
  // Execute

  /** `process_execute_msg` as written. A portal with cached results is
      resumed: the cache is taken out, the portal is asserted to be in the
      named store, and the cache goes back unless `consumed` says it was
      drained. Otherwise the portal is looked up and executed (`executed`)
      and its results consumed likewise. */
  function ExecuteStep(st: ConnState, portalName: Name, executed: Result<ResultCache, string>,
                       consumed: Result<bool, string>): (s: Step)
    ensures s.state.isTerminate == st.isTerminate && s.state.ignoreUntilSync == st.ignoreUntilSync
    ensures s.state.statements == st.statements && s.state.unnamedStatement == st.unnamedStatement
    ensures s.state.portals == st.portals && s.state.unnamedPortal == st.unnamedPortal && s.state.dependency == st.dependency
  {
    if portalName in st.resultCache then
      var cache := st.resultCache[portalName];
      var st1 := st.(resultCache := st.resultCache - {portalName});
      if portalName !in st.portals then Fail(st1, Panic(PORTAL_NOT_STORED))
      else if consumed.Failure? then Fail(st1, IoError(consumed.error))
      else if consumed.value then Ok(st1)
      else Ok(st1.(resultCache := st1.resultCache[portalName := cache]))
    else if GetPortal(st, portalName).Failure? then Fail(st, GetPortal(st, portalName).error)
    else if executed.Failure? then Fail(st, ExtendedExecuteError(executed.error))
    else if consumed.Failure? then Fail(st, IoError(consumed.error))
    else if consumed.value then Ok(st)
    else Ok(st.(resultCache := st.resultCache[portalName := executed.value]))
  }

  /** `process_execute_msg` as evidently intended: the resumed portal is
      asserted to exist, named or unnamed. */
  function ExecuteStepChecked(st: ConnState, portalName: Name, executed: Result<ResultCache, string>,
                              consumed: Result<bool, string>): Step
  {
    if portalName in st.resultCache && !HasPortal(st, portalName) then
      Fail(st.(resultCache := st.resultCache - {portalName}), Panic(PORTAL_MISSING))
    else if portalName in st.resultCache && portalName == [] then
      var cache := st.resultCache[portalName];
      var st1 := st.(resultCache := st.resultCache - {portalName});
      if consumed.Failure? then Fail(st1, IoError(consumed.error))
      else if consumed.value then Ok(st1)
      else Ok(st1.(resultCache := st1.resultCache[portalName := cache]))
    else ExecuteStep(st, portalName, executed, consumed)
  }

  /** On a reachable state the checked Execute never panics, agrees with
      the written one on named portals, keeps a portal's results cached
      exactly while they are not drained, and fails on a missing portal. */
  lemma ExecuteStepCheckedSpec(st: ConnState, portalName: Name, executed: Result<ResultCache, string>,
                               consumed: Result<bool, string>)
    requires Inv(st)
    ensures var s := ExecuteStepChecked(st, portalName, executed, consumed);
      && !IsPanic(s)
      && (portalName != [] ==> s == ExecuteStep(st, portalName, executed, consumed))
      && (!HasPortal(st, portalName) ==> s == Fail(st, GetPortal(st, portalName).error))
      && (s.result.Success? ==> (portalName in s.state.resultCache <==> consumed == Success(false)))
      && s.state.portals == st.portals && s.state.unnamedPortal == st.unnamedPortal
  {
  }

  // ---------------------------------------------------------------------
  // Describe

  /** `process_describe_msg`: kind `S` describes a statement and `P` a
      portal (any other kind is a panic); a missing one is an error, as is
      the session's own (`described`). Nothing is stored. */
  function DescribeStep(st: ConnState, kind: bv8, name: Name, described: Result<(), string>): (s: Step)
    ensures s.state == st
    ensures IsPanic(s) <==> kind != 'S' as bv8 && kind != 'P' as bv8
    ensures kind == 'S' as bv8 && !HasStatement(st, name) ==> s.result.Failure?
    ensures kind == 'P' as bv8 && !HasPortal(st, name) ==> s.result.Failure?
    ensures s.result.Success? <==>
      && ((kind == 'S' as bv8 && HasStatement(st, name)) || (kind == 'P' as bv8 && HasPortal(st, name)))
      && described.Success?
  {
    if kind != 'S' as bv8 && kind != 'P' as bv8 then Fail(st, Panic(BAD_KIND))
    else if kind == 'S' as bv8 && GetStatement(st, name).Failure? then Fail(st, GetStatement(st, name).error)
    else if kind == 'P' as bv8 && GetPortal(st, name).Failure? then Fail(st, GetPortal(st, name).error)
    else if described.Failure? then Fail(st, Uncategorized(described.error))
    else Ok(st)
  }

  // ---------------------------------------------------------------------
  // Close

  /** `remove_portal`: the portal goes from its slot, with its cached
      results. */
  function RemovePortal(st: ConnState, name: Name): (r: ConnState)
    ensures r.isTerminate == st.isTerminate && r.ignoreUntilSync == st.ignoreUntilSync
    ensures !HasPortal(r, name) && name !in r.resultCache
    ensures forall p | p != name :: HasPortal(r, p) == HasPortal(st, p) && (p in r.resultCache <==> p in st.resultCache)
    ensures r.statements == st.statements && r.unnamedStatement == st.unnamedStatement && r.dependency == st.dependency
    ensures r.portals.Keys <= st.portals.Keys
  {
    var st1 := if name == [] then st.(unnamedPortal := None) else st.(portals := st.portals - {name});
    st1.(resultCache := st1.resultCache - {name})
  }

  /** `remove_portal` for each name in turn. */
  function RemovePortals(st: ConnState, names: seq<Name>): (r: ConnState)
    ensures r.isTerminate == st.isTerminate && r.ignoreUntilSync == st.ignoreUntilSync
    decreases |names|
  {
    if names == [] then st else RemovePortals(RemovePortal(st, names[0]), names[1..])
  }

  /** Removing a list of portals removes exactly those, with their caches,
      and touches no statement. */
  lemma {:induction false} RemovePortalsSpec(st: ConnState, names: seq<Name>)
    ensures var r := RemovePortals(st, names);
      && (forall p | p in names :: !HasPortal(r, p) && p !in r.resultCache)
      && (forall p | p !in names :: HasPortal(r, p) == HasPortal(st, p) && (p in r.resultCache <==> p in st.resultCache))
      && r.statements == st.statements && r.unnamedStatement == st.unnamedStatement && r.dependency == st.dependency
      && r.isTerminate == st.isTerminate && r.ignoreUntilSync == st.ignoreUntilSync
      && r.portals.Keys <= st.portals.Keys
    decreases |names|
  {
    if names != [] {
      RemovePortalsSpec(RemovePortal(st, names[0]), names[1..]);
      forall p | p in names ensures p == names[0] || p in names[1..] {
        var i :| 0 <= i < |names| && names[i] == p;
        if i > 0 {
          assert names[1..][i - 1] == p;
        }
      }
    }
  }

  /** The state after closing statement `name`, before its portals go:
      the statement leaves its slot and its list is taken out. */
  function DropStatement(st: ConnState, name: Name): (r: ConnState)
    ensures !HasStatement(r, name) && name !in r.dependency
    ensures forall n | n != name :: HasStatement(r, n) == HasStatement(st, n)
    ensures r.portals == st.portals && r.unnamedPortal == st.unnamedPortal && r.resultCache == st.resultCache
    ensures r.isTerminate == st.isTerminate && r.ignoreUntilSync == st.ignoreUntilSync
  {
    var st1 := if name == [] then st.(unnamedStatement := None) else st.(statements := st.statements - {name});
    st1.(dependency := st1.dependency - {name})
  }

  /** The portals listed under statement `name`, none if it has no list. */
  function Dependents(st: ConnState, name: Name): seq<Name> {
    if name in st.dependency then st.dependency[name] else []
  }

  /** `process_close_msg`: kind `S` closes a statement and every portal
      listed under it, kind `P` one portal; any other kind is a panic.
      Closing what does not exist is not an error. */
  function CloseStep(st: ConnState, kind: bv8, name: Name): (s: Step)
    ensures s.state.isTerminate == st.isTerminate && s.state.ignoreUntilSync == st.ignoreUntilSync
  {
    if kind != 'S' as bv8 && kind != 'P' as bv8 then Fail(st, Panic(BAD_KIND))
    else if kind == 'S' as bv8 then Ok(RemovePortals(DropStatement(st, name), Dependents(st, name)))
    else Ok(RemovePortal(st, name))
  }

  /** Closing a statement removes it, its list, and every portal listed
      under it with their caches, and no other statement; closing a portal
      removes just that portal and its cache. */
  lemma CloseStepSpec(st: ConnState, kind: bv8, name: Name)
    ensures var s := CloseStep(st, kind, name);
      && (s.result.Failure? <==> kind != 'S' as bv8 && kind != 'P' as bv8)
      && (kind == 'S' as bv8 ==>
           && !HasStatement(s.state, name) && name !in s.state.dependency
           && (forall n | n != name :: HasStatement(s.state, n) == HasStatement(st, n))
           && (forall p | p in Dependents(st, name) :: !HasPortal(s.state, p) && p !in s.state.resultCache)
           && (forall p | p !in Dependents(st, name) :: HasPortal(s.state, p) == HasPortal(st, p)))
      && (kind == 'P' as bv8 ==>
           && !HasPortal(s.state, name) && name !in s.state.resultCache
           && (forall p | p != name :: HasPortal(s.state, p) == HasPortal(st, p))
           && s.state.statements == st.statements && s.state.dependency == st.dependency)
  {
    if kind == 'S' as bv8 {
      RemovePortalsSpec(DropStatement(st, name), Dependents(st, name));
    }
  }

  // ---------------------------------------------------------------------
  // One message

  /** A frontend message of the extended-query protocol, with what the
      session and the socket answer while it is handled. Raw names still
      carry their trailing NUL. `Other` stands for the messages this model
      leaves to the session (SSL, startup, password, simple query, cancel)
      and their outcome. */
  datatype FeMessage =
    | Parse(rawStatementName: Bytes, sqlStatements: Result<nat, string>, typeIds: seq<int>,
            knownOids: set<int>, prepared: Result<PreparedStatement, string>)
    | Bind(rawStatementName: Bytes, rawPortalName: Bytes, formats: Result<(), string>, bound: Result<Portal, string>)
    | Execute(rawPortalName: Bytes, executed: Result<ResultCache, string>, consumed: Result<bool, string>)
    | Describe(kind: bv8, rawName: Bytes, described: Result<(), string>)
    | Close(kind: bv8, rawName: Bytes)
    | Flush(flushed: Result<(), string>)
    | Sync
    | Terminate
    | HealthCheck
    | Other(outcome: Result<(), PsqlError>)

  /** A failing handler sets the flag, unless it panicked: a panic unwinds
      past the code that would set it. */
  function AfterHandler(s: Step): (r: Step)
    ensures r.result == s.result
    ensures s.result.Failure? && !s.result.error.Panic? ==> r.state == s.state.(ignoreUntilSync := true)
    ensures s.result.Success? || s.result.error.Panic? ==> r == s
  {
    if s.result.Failure? && !s.result.error.Panic? then s.(state := s.state.(ignoreUntilSync := true)) else s
  }

  /** `do_process_inner` for the extended-query messages: while the flag is
      set every message but Sync is dropped; Sync clears it; Terminate and
      HealthCheck end the connection; an error in Parse, Bind, Execute,
      Describe, Close or Flush sets the flag. */
  function ProcessStep(st: ConnState, msg: FeMessage): (s: Step)
    ensures st.ignoreUntilSync && !msg.Sync? ==> s == Ok(st)
    ensures msg.Sync? ==> s == Ok(st.(ignoreUntilSync := false))
    ensures !st.ignoreUntilSync && (msg.Terminate? || msg.HealthCheck?) ==> s == Ok(st.(isTerminate := true))
    ensures !st.ignoreUntilSync && !msg.Other? && s.result.Failure? && !s.result.error.Panic? ==> s.state.ignoreUntilSync
    ensures !st.ignoreUntilSync && s.result.Success? ==> !s.state.ignoreUntilSync
  {
    if st.ignoreUntilSync && !msg.Sync? then Ok(st)
    else match msg
      case Parse(n, sql, ids, known, prepared) =>
        AfterHandler(ParseStep(st, StripNul(n), sql, ids, known, prepared))
      case Bind(sn, pn, formats, bound) =>
        AfterHandler(BindStep(st, StripNul(sn), StripNul(pn), formats, bound))
      case Execute(pn, executed, consumed) =>
        AfterHandler(ExecuteStep(st, StripNul(pn), executed, consumed))
      case Describe(kind, n, described) =>
        AfterHandler(DescribeStep(st, kind, StripNul(n), described))
      case Close(kind, n) =>
        AfterHandler(CloseStep(st, kind, StripNul(n)))
      case Flush(flushed) =>
        if flushed.Failure? then Fail(st.(ignoreUntilSync := true), IoError(flushed.error)) else Ok(st)
      case Sync => Ok(st.(ignoreUntilSync := false))
      case Terminate => Ok(st.(isTerminate := true))
      case HealthCheck => Ok(st.(isTerminate := true))
      case Other(outcome) => Step(st, outcome)
  }

  // ---------------------------------------------------------------------
  // Reachable states

  lemma ParseStepInv(st: ConnState, name: Name, sqlStatements: Result<nat, string>, typeIds: seq<int>,
                     knownOids: set<int>, prepared: Result<PreparedStatement, string>)
    requires Inv(st)
    ensures Inv(ParseStep(st, name, sqlStatements, typeIds, knownOids, prepared).state)
  {
    var s := ParseStep(st, name, sqlStatements, typeIds, knownOids, prepared);
    var st1 := if name == [] then st.(unnamedStatement := None) else st;
    assert HasPortalsOf(st1, st);
    if s.result.Success? {
      var st2 := if name == [] then st1.(unnamedStatement := Some(prepared.value))
                 else st1.(statements := st1.statements[name := prepared.value]);
      assert s.state == st2.(dependency := st2.dependency[name := []]);
      assert HasPortalsOf(s.state, st);
    } else {
      assert s.state == st || s.state == st1;
    }
  }

  /** Two states with the same portals and caches. */
  predicate HasPortalsOf(a: ConnState, b: ConnState) {
    a.portals == b.portals && a.unnamedPortal == b.unnamedPortal && a.resultCache == b.resultCache
  }

  lemma BindStepInv(st: ConnState, statementName: Name, portalName: Name,
                    formats: Result<(), string>, bound: Result<Portal, string>)
    requires Inv(st)
    ensures Inv(BindStep(st, statementName, portalName, formats, bound).state)
  {
    if portalName in st.portals || GetStatement(st, statementName).Failure? || formats.Failure? || bound.Failure? {
      assert BindStep(st, statementName, portalName, formats, bound).state == st;
    } else {
      assert portalName != [] ==> portalName !in st.resultCache;
      var st1 := if portalName == [] then st.(resultCache := st.resultCache - {portalName}, unnamedPortal := Some(bound.value))
                 else st.(portals := st.portals[portalName := bound.value]);
      assert statementName in st1.dependency;
      forall k | k in st1.resultCache ensures HasPortal(st1, k) {
        assert HasPortal(st, k);
      }
      var r := st1.(dependency := st1.dependency[statementName := st1.dependency[statementName] + [portalName]]);
      assert BindStep(st, statementName, portalName, formats, bound) == Ok(r);
    }
  }

  lemma ExecuteStepInv(st: ConnState, portalName: Name, executed: Result<ResultCache, string>,
                       consumed: Result<bool, string>)
    requires Inv(st)
    ensures Inv(ExecuteStep(st, portalName, executed, consumed).state)
  {
  }

  lemma CloseStepInv(st: ConnState, kind: bv8, name: Name)
    requires Inv(st)
    ensures Inv(CloseStep(st, kind, name).state)
  {
    if kind == 'S' as bv8 {
      CloseStatementInv(st, name);
    } else if kind == 'P' as bv8 {
      var r := RemovePortal(st, name);
      forall k | k in r.resultCache ensures HasPortal(r, k) {
        assert HasPortal(st, k);
      }
    }
  }

  lemma CloseStatementInv(st: ConnState, name: Name)
    requires Inv(st)
    ensures Inv(RemovePortals(DropStatement(st, name), Dependents(st, name)))
  {
    var d := DropStatement(st, name);
    assert Inv(d) by {
      assert HasPortalsOf(d, st);
      forall k | k in d.resultCache ensures HasPortal(d, k) {
        assert HasPortal(st, k);
      }
    }
    RemovePortalsSpec(d, Dependents(st, name));
    var r := RemovePortals(d, Dependents(st, name));
    forall k | k in r.resultCache ensures HasPortal(r, k) {
      assert k !in Dependents(st, name);
      assert HasPortal(d, k);
    }
  }

  /** Every message keeps the invariant, so it holds on every state a
      connection reaches from `PgProtocol::new`. */
  lemma ProcessStepInv(st: ConnState, msg: FeMessage)
    requires Inv(st)
    ensures Inv(ProcessStep(st, msg).state)
  {
    if !st.ignoreUntilSync || msg.Sync? {
      match msg {
        case Parse(n, sql, ids, known, prepared) =>
          ParseStepInv(st, StripNul(n), sql, ids, known, prepared);
          assert ProcessStep(st, msg) == AfterHandler(ParseStep(st, StripNul(n), sql, ids, known, prepared));
        case Bind(sn, pn, formats, bound) =>
          BindStepInv(st, StripNul(sn), StripNul(pn), formats, bound);
          assert ProcessStep(st, msg) == AfterHandler(BindStep(st, StripNul(sn), StripNul(pn), formats, bound));
        case Execute(pn, executed, consumed) =>
          ExecuteStepInv(st, StripNul(pn), executed, consumed);
          assert ProcessStep(st, msg) == AfterHandler(ExecuteStep(st, StripNul(pn), executed, consumed));
        case Describe(kind, n, described) =>
          assert ProcessStep(st, msg) == AfterHandler(DescribeStep(st, kind, StripNul(n), described));
        case Close(kind, n) =>
          CloseStepInv(st, kind, StripNul(n));
          assert ProcessStep(st, msg) == AfterHandler(CloseStep(st, kind, StripNul(n)));
        case _ =>
      }
    }
  }

  /** Parse, Bind, then two Executes of the unnamed portal, the first
      leaving rows behind: the second finds the cache, asserts that the
      named store holds the unnamed portal, and panics. */
  lemma ResumingUnnamedPortalPanics()
    ensures var s1 := ProcessStep(InitialState(), Parse([0], Success(1), [], {}, Success(PreparedStatement(1))));
      var s2 := ProcessStep(s1.state, Bind([0], [0], Success(()), Success(Portal(1))));
      var s3 := ProcessStep(s2.state, Execute([0], Success(ResultCache(1)), Success(false)));
      var s4 := ProcessStep(s3.state, Execute([0], Success(ResultCache(2)), Success(true)));
      && s1.result.Success? && s2.result.Success? && s3.result.Success?
      && HasPortal(s3.state, []) && IsPanic(s4)
  {
    assert StripNul([0]) == [];
  }

  // ---------------------------------------------------------------------
  // Which statement a portal is listed under

  /** The list without `x`. */
  function Without(l: seq<Name>, x: Name): (r: seq<Name>)
    ensures forall y :: y in r <==> y in l && y != x
    decreases |l|
  {
    if l == [] then [] else (if l[0] == x then [] else [l[0]]) + Without(l[1..], x)
  }

  /** Every portal name is listed under at most one statement. */
  predicate ListedOnce(dep: map<Name, seq<Name>>) {
    forall s1, s2, p | s1 in dep && s2 in dep && p in dep[s1] && p in dep[s2] :: s1 == s2
  }

  /** With every portal listed once, closing a statement keeps every live
      portal listed under another statement. */
  lemma CloseStatementKeepsOtherPortals(st: ConnState, name: Name, other: Name, p: Name)
    requires ListedOnce(st.dependency)
    requires other in st.dependency && other != name && p in st.dependency[other] && HasPortal(st, p)
    ensures HasPortal(CloseStep(st, 'S' as bv8, name).state, p)
  {
    RemovePortalsSpec(DropStatement(st, name), Dependents(st, name));
  }

  /** The states of the trace below, after each message. */
  function RebindTrace(k: nat): ConnState
    requires 1 <= k <= 5
  {
    var a, b, p: Name := [0x61], [0x62], [0x70];
    var s1 := InitialState().(statements := map[a := PreparedStatement(1)], dependency := map[a := []]);
    var s2 := s1.(statements := s1.statements[b := PreparedStatement(2)], dependency := s1.dependency[b := []]);
    var s3 := s2.(portals := map[p := Portal(1)], dependency := s2.dependency[a := [p]]);
    var s4 := s3.(portals := map[]);
    var s5 := s4.(portals := map[p := Portal(2)], dependency := s4.dependency[b := [p]]);
    if k == 1 then s1 else if k == 2 then s2 else if k == 3 then s3 else if k == 4 then s4 else s5
  }

  lemma RebindTraceParses()
    ensures ProcessStep(InitialState(), Parse([0x61], Success(1), [], {}, Success(PreparedStatement(1)))) == Ok(RebindTrace(1))
    ensures ProcessStep(RebindTrace(1), Parse([0x62], Success(1), [], {}, Success(PreparedStatement(2)))) == Ok(RebindTrace(2))
  {
    assert StripNul([0x61]) == [0x61] && StripNul([0x62]) == [0x62];
    assert ParamTypes([], {}) == Success([]);
  }

  lemma RebindTraceBinds()
    ensures ProcessStep(RebindTrace(2), Bind([0x61], [0x70], Success(()), Success(Portal(1)))) == Ok(RebindTrace(3))
    ensures ProcessStep(RebindTrace(3), Close('P' as bv8, [0x70])) == Ok(RebindTrace(4))
    ensures ProcessStep(RebindTrace(4), Bind([0x62], [0x70], Success(()), Success(Portal(2)))) == Ok(RebindTrace(5))
  {
    RebindTraceFirstBind();
    RebindTraceClosePortal();
    RebindTraceSecondBind();
  }

  lemma RebindTraceFirstBind()
    ensures ProcessStep(RebindTrace(2), Bind([0x61], [0x70], Success(()), Success(Portal(1)))) == Ok(RebindTrace(3))
  {
    assert StripNul([0x61]) == [0x61] && StripNul([0x70]) == [0x70];
    var empty: seq<Name> := [];
    assert empty + [[0x70]] == [[0x70]];
    var none: map<Name, Portal> := map[];
    assert none[[0x70] := Portal(1)] == map[[0x70] := Portal(1)];
  }

  lemma RebindTraceClosePortal()
    ensures ProcessStep(RebindTrace(3), Close('P' as bv8, [0x70])) == Ok(RebindTrace(4))
  {
    assert StripNul([0x70]) == [0x70];
    assert RebindTrace(3).portals - {[0x70]} == map[];
  }

  lemma RebindTraceSecondBind()
    ensures ProcessStep(RebindTrace(4), Bind([0x62], [0x70], Success(()), Success(Portal(2)))) == Ok(RebindTrace(5))
  {
    assert StripNul([0x62]) == [0x62] && StripNul([0x70]) == [0x70];
    var empty: seq<Name> := [];
    assert empty + [[0x70]] == [[0x70]];
    var none: map<Name, Portal> := map[];
    assert none[[0x70] := Portal(2)] == map[[0x70] := Portal(2)];
  }

  /** Parse statements `a` and `b`, Bind portal `p` from `a`, Close `p`,
      Bind `p` again from `b`, Close statement `a`: the portal, now bound
      from `b` and listed under it, is closed too, because `p` is still on
      the list of `a`. */
  lemma ClosingStatementClosesReboundPortal()
    ensures var s5 := RebindTrace(5);
      && (forall k | 1 <= k <= 5 :: RebindTrace(k).ignoreUntilSync == false)
      && HasPortal(s5, [0x70]) && [0x62] in s5.dependency && [0x70] in s5.dependency[[0x62]]
      && !ListedOnce(s5.dependency)
      && var s6 := ProcessStep(s5, Close('S' as bv8, [0x61]));
      && HasStatement(s6.state, [0x62]) && !HasPortal(s6.state, [0x70])
  {
    var s5 := RebindTrace(5);
    assert s5.dependency[[0x61]] == [[0x70]] && s5.dependency[[0x62]] == [[0x70]];
    assert StripNul([0x61]) == [0x61];
    RemovePortalsSpec(DropStatement(s5, [0x61]), Dependents(s5, [0x61]));
  }

  /** `remove_portal` as evidently intended: the closed portal's name also
      leaves every dependency list. */
  function RemovePortalUnlisting(st: ConnState, name: Name): (r: ConnState)
    ensures forall s | s in r.dependency :: name !in r.dependency[s]
    ensures r.dependency.Keys == st.dependency.Keys
    ensures forall s, q | s in st.dependency && q != name :: q in r.dependency[s] <==> q in st.dependency[s]
  {
    var r := RemovePortal(st, name);
    r.(dependency := map s | s in r.dependency :: Without(r.dependency[s], name))
  }

  /** `process_bind_msg` as evidently intended: before the portal is listed
      under its statement its name leaves every other list (binding the
      unnamed portal again replaces the old one). */
  function BindStepUnlisting(st: ConnState, statementName: Name, portalName: Name,
                             formats: Result<(), string>, bound: Result<Portal, string>): Step
  {
    var s := BindStep(st, statementName, portalName, formats, bound);
    if s.result.Failure? then s
    else
      var dep := map n | n in st.dependency :: Without(st.dependency[n], portalName);
      Ok(s.state.(dependency := dep[statementName := dep[statementName] + [portalName]]))
  }

  /** `process_close_msg` as evidently intended: closing a portal also
      takes it off every list. */
  function CloseStepUnlisting(st: ConnState, kind: bv8, name: Name): Step {
    if kind == 'P' as bv8 then Ok(RemovePortalUnlisting(st, name)) else CloseStep(st, kind, name)
  }

  /** A list-by-list smaller map of lists keeps every name listed once. */
  lemma ListedOnceShrinks(dep: map<Name, seq<Name>>, dep': map<Name, seq<Name>>)
    requires ListedOnce(dep)
    requires dep'.Keys <= dep.Keys && forall s, q | s in dep' && q in dep'[s] :: q in dep[s]
    ensures ListedOnce(dep')
  {
  }

  /** Parse as written, and the corrected Close, keep every portal listed
      under at most one statement. */
  lemma ParseKeepsListedOnce(st: ConnState, name: Name, sqlStatements: Result<nat, string>, typeIds: seq<int>,
                             knownOids: set<int>, prepared: Result<PreparedStatement, string>)
    requires ListedOnce(st.dependency)
    ensures ListedOnce(ParseStep(st, name, sqlStatements, typeIds, knownOids, prepared).state.dependency)
  {
    var d := ParseStep(st, name, sqlStatements, typeIds, knownOids, prepared).state.dependency;
    forall s1, s2, q | s1 in d && s2 in d && q in d[s1] && q in d[s2] ensures s1 == s2 {
      assert s1 != name || d == st.dependency;
      assert q in st.dependency[s1] && q in st.dependency[s2];
    }
  }

  lemma CloseUnlistingKeepsListedOnce(st: ConnState, kind: bv8, name: Name)
    requires ListedOnce(st.dependency)
    ensures ListedOnce(CloseStepUnlisting(st, kind, name).state.dependency)
  {
    if kind == 'S' as bv8 {
      RemovePortalsSpec(DropStatement(st, name), Dependents(st, name));
    }
    ListedOnceShrinks(st.dependency, CloseStepUnlisting(st, kind, name).state.dependency);
  }

  /** The corrected Bind keeps every portal listed under at most one
      statement: the bound portal only under its statement, every other
      portal where it was. */
  lemma BindUnlistingKeepsListedOnce(st: ConnState, statementName: Name, portalName: Name,
                                     formats: Result<(), string>, bound: Result<Portal, string>)
    requires ListedOnce(st.dependency) && Inv(st)
    ensures ListedOnce(BindStepUnlisting(st, statementName, portalName, formats, bound).state.dependency)
  {
    var s := BindStep(st, statementName, portalName, formats, bound);
    BindStepSpec(st, statementName, portalName, formats, bound);
    if s.result.Success? {
      assert statementName in st.dependency;
      var dep := map n | n in st.dependency :: Without(st.dependency[n], portalName);
      var d := dep[statementName := dep[statementName] + [portalName]];
      forall s1, s2, q | s1 in d && s2 in d && q in d[s1] && q in d[s2] ensures s1 == s2 {
        if q == portalName {
          assert s1 == statementName && s2 == statementName;
        } else {
          assert q in st.dependency[s1] && q in st.dependency[s2];
        }
      }
      assert BindStepUnlisting(st, statementName, portalName, formats, bound).state.dependency == d;
    }
  }
}
