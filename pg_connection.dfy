/** The extended-query handlers of a Postgres wire protocol connection as
    they update the connection's fields in place, each proved to leave the
    state and return the result its step function gives. */
module PgConnection {
  import opened Wrappers
  import opened PgProtocolStrings
  import opened PgProtocol

  /** The extended-query fields of `PgProtocol`. */
  class Connection {
    var isTerminate: bool
    var ignoreUntilSync: bool
    var unnamedStatement: Option<PreparedStatement>
    var statements: map<Name, PreparedStatement>
    var unnamedPortal: Option<Portal>
    var portals: map<Name, Portal>
    var resultCache: map<Name, ResultCache>
    var dependency: map<Name, seq<Name>>

    function State(): ConnState
      reads this
    {
      ConnState(isTerminate, ignoreUntilSync, unnamedStatement, statements, unnamedPortal, portals,
                resultCache, dependency)
    }

    /** `PgProtocol::new`. */
    constructor ()
      ensures State() == InitialState()
    {
      isTerminate, ignoreUntilSync := false, false;
      unnamedStatement, statements := None, map[];
      unnamedPortal, portals := None, map[];
      resultCache, dependency := map[], map[];
    }

    /** `inner_process_parse_msg`. */
    method ProcessParseMsg(name: Name, sqlStatements: Result<nat, string>, typeIds: seq<int>,
                           knownOids: set<int>, prepared: Result<PreparedStatement, string>)
      returns (r: Result<(), PsqlError>)
      modifies this
      ensures Step(State(), r) == ParseStep(old(State()), name, sqlStatements, typeIds, knownOids, prepared)
    {
      if name == [] {
        unnamedStatement := None;
      } else if name in statements {
        return Failure(ExtendedPrepareError(DUPLICATED_STATEMENT));
      }
      if sqlStatements.Failure? {
        return Failure(ExtendedPrepareError(sqlStatements.error));
      }
      if sqlStatements.value > 1 {
        return Failure(ExtendedPrepareError(ONLY_ONE_STATEMENT));
      }
      var paramTypes := ParamTypes(typeIds, knownOids);
      if paramTypes.Failure? {
        return Failure(paramTypes.error);
      }
      if prepared.Failure? {
        return Failure(ExtendedPrepareError(prepared.error));
      }
      if name == [] {
        unnamedStatement := Some(prepared.value);
      } else {
        statements := statements[name := prepared.value];
      }
      dependency := dependency[name := []];
      r := Success(());
    }

    /** `process_bind_msg`. */
    method ProcessBindMsg(statementName: Name, portalName: Name, formats: Result<(), string>,
                          bound: Result<Portal, string>)
      returns (r: Result<(), PsqlError>)
      modifies this
      ensures Step(State(), r) == BindStep(old(State()), statementName, portalName, formats, bound)
    {
      if portalName in portals {
        return Failure(Uncategorized(DUPLICATED_PORTAL));
      }
      var statement := GetStatement(State(), statementName);
      if statement.Failure? {
        return Failure(statement.error);
      }
      if formats.Failure? {
        return Failure(Uncategorized(formats.error));
      }
      if bound.Failure? {
        return Failure(Uncategorized(bound.error));
      }
      if portalName == [] {
        resultCache := resultCache - {portalName};
        unnamedPortal := Some(bound.value);
      } else {
        if portalName in resultCache {
          return Failure(Panic(PORTAL_OVERRIDDEN));
        }
        portals := portals[portalName := bound.value];
      }
      if statementName !in dependency {
        return Failure(Panic(UNWRAP_NONE));
      }
      dependency := dependency[statementName := dependency[statementName] + [portalName]];
      r := Success(());
    }

    /** `process_execute_msg`. */
    method ProcessExecuteMsg(portalName: Name, executed: Result<ResultCache, string>, consumed: Result<bool, string>)
      returns (r: Result<(), PsqlError>)
      modifies this
      ensures Step(State(), r) == ExecuteStep(old(State()), portalName, executed, consumed)
    {
      if portalName in resultCache {
        var cache := resultCache[portalName];
        resultCache := resultCache - {portalName};
        if portalName !in portals {
          return Failure(Panic(PORTAL_NOT_STORED));
        }
        if consumed.Failure? {
          return Failure(IoError(consumed.error));
        }
        if !consumed.value {
          resultCache := resultCache[portalName := cache];
        }
        return Success(());
      }
      var portal := GetPortal(State(), portalName);
      if portal.Failure? {
        return Failure(portal.error);
      }
      if executed.Failure? {
        return Failure(ExtendedExecuteError(executed.error));
      }
      if consumed.Failure? {
        return Failure(IoError(consumed.error));
      }
      if !consumed.value {
        resultCache := resultCache[portalName := executed.value];
      }
      r := Success(());
    }

    /** `process_describe_msg`: reads the stores only. */
    method ProcessDescribeMsg(kind: bv8, name: Name, described: Result<(), string>) returns (r: Result<(), PsqlError>)
      ensures Step(State(), r) == DescribeStep(State(), kind, name, described)
    {
      if kind != 'S' as bv8 && kind != 'P' as bv8 {
        return Failure(Panic(BAD_KIND));
      }
      if kind == 'S' as bv8 {
        var statement := GetStatement(State(), name);
        if statement.Failure? {
          return Failure(statement.error);
        }
      } else {
        var portal := GetPortal(State(), name);
        if portal.Failure? {
          return Failure(portal.error);
        }
      }
      if described.Failure? {
        return Failure(Uncategorized(described.error));
      }
      r := Success(());
    }

    /** `remove_portal`. */
    method RemovePortalMsg(name: Name)
      modifies this
      ensures State() == RemovePortal(old(State()), name)
    {
      if name == [] {
        unnamedPortal := None;
      } else {
        portals := portals - {name};
      }
      resultCache := resultCache - {name};
    }

    /** `process_close_msg`: closing a statement takes its dependency list
        out and removes each portal on it in turn. */
    method ProcessCloseMsg(kind: bv8, name: Name) returns (r: Result<(), PsqlError>)
      modifies this
      ensures Step(State(), r) == CloseStep(old(State()), kind, name)
    {
      if kind != 'S' as bv8 && kind != 'P' as bv8 {
        return Failure(Panic(BAD_KIND));
      }
      if kind == 'S' as bv8 {
        var dependents := Dependents(State(), name);
        if name == [] {
          unnamedStatement := None;
        } else {
          statements := statements - {name};
        }
        dependency := dependency - {name};
        assert State() == DropStatement(old(State()), name);
        var i := 0;
        assert dependents[0..] == dependents;
        while i < |dependents|
          invariant 0 <= i <= |dependents|
          invariant RemovePortals(State(), dependents[i..]) == RemovePortals(DropStatement(old(State()), name), dependents)
        {
          assert dependents[i..][1..] == dependents[i + 1..];
          RemovePortalMsg(dependents[i]);
          i := i + 1;
        }
        assert dependents[i..] == [];
      } else {
        RemovePortalMsg(name);
      }
      r := Success(());
    }

    /** `do_process_inner` for the extended-query messages. */
    method Process(msg: FeMessage) returns (r: Result<(), PsqlError>)
      modifies this
      ensures Step(State(), r) == ProcessStep(old(State()), msg)
    {
      if ignoreUntilSync && !msg.Sync? {
        return Success(());
      }
      match msg {
        case Parse(n, sql, ids, known, prepared) =>
          r := ProcessParseMsg(StripNul(n), sql, ids, known, prepared);
        case Bind(sn, pn, formats, bound) =>
          r := ProcessBindMsg(StripNul(sn), StripNul(pn), formats, bound);
        case Execute(pn, executed, consumed) =>
          r := ProcessExecuteMsg(StripNul(pn), executed, consumed);
        case Describe(kind, n, described) =>
          r := ProcessDescribeMsg(kind, StripNul(n), described);
        case Close(kind, n) =>
          r := ProcessCloseMsg(kind, StripNul(n));
        case Flush(flushed) =>
          if flushed.Failure? {
            ignoreUntilSync := true;
            return Failure(IoError(flushed.error));
          }
          return Success(());
        case Sync =>
          ignoreUntilSync := false;
          return Success(());
        case Terminate =>
          isTerminate := true;
          return Success(());
        case HealthCheck =>
          isTerminate := true;
          return Success(());
        case Other(outcome) =>
          return outcome;
      }
      if r.Failure? && !r.error.Panic? {
        ignoreUntilSync := true;
      }
    }
  }
}
