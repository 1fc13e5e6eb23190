/** Validation of the MCP server table, and lookup by name in a valid table. */
module ConfigServers {
  import opened Text
  import opened ConfigState

  /** An enabled server that can be started or reached. */
  predicate Usable(s: Server) {
    && s.name != [] && !s.transport.UnknownTransport?
    && (s.transport.Stdio? ==> s.command != [])
    && (!s.transport.Stdio? ==> s.url != [])
  }

  /** Enabled servers are usable, and no two of them share a name. */
  predicate Valid(servers: seq<Server>) {
    && (forall i :: 0 <= i < |servers| && servers[i].enabled ==> Usable(servers[i]))
    && forall i, j :: 0 <= i < j < |servers| && servers[i].enabled && servers[j].enabled ==>
         servers[i].name != servers[j].name
  }

  /** A later enabled server has the name of server `i`. */
  predicate Shared(servers: seq<Server>, i: nat)
    requires i < |servers|
  {
    exists j :: i < j < |servers| && servers[j].enabled && servers[j].name == servers[i].name
  }

  /** What is wrong with server `i`. */
  function Fault(servers: seq<Server>, i: nat): Option<string>
    requires i < |servers|
  {
    var s := servers[i];
    if !s.enabled then None
    else if s.name == [] || s.transport.UnknownTransport? then Some("sc.config.invalid_mcp_server")
    else if s.transport.Stdio? && s.command == [] then Some("sc.config.invalid_mcp_stdio_server")
    else if (s.transport.Sse? || s.transport.Http?) && s.url == [] then Some("sc.config.invalid_mcp_remote_server")
    else if Shared(servers, i) then Some("sc.config.duplicate_mcp_server")
    else None
  }

  predicate FaultlessUpTo(servers: seq<Server>, n: nat)
    requires n <= |servers|
  {
    forall i :: 0 <= i < n ==> Fault(servers, i).None?
  }

  /** A table is valid iff none of its servers has a fault. */
  lemma ValidIff(servers: seq<Server>)
    ensures Valid(servers) <==> FaultlessUpTo(servers, |servers|)
  {
    if FaultlessUpTo(servers, |servers|) {
      forall i, j | 0 <= i < j < |servers| && servers[i].enabled && servers[j].enabled
        ensures servers[i].name != servers[j].name
      {
        assert Fault(servers, i).None?;
      }
      forall i | 0 <= i < |servers| && servers[i].enabled
        ensures Usable(servers[i])
      {
        assert Fault(servers, i).None?;
      }
    }
  }

  /** The fault of the first faulty server from `from` on. */
  function Verdict(servers: seq<Server>, from: nat): (error: Option<string>)
    requires from <= |servers|
    decreases |servers| - from
  {
    if from == |servers| then None
    else if Fault(servers, from).Some? then Fault(servers, from)
    else Verdict(servers, from + 1)
  }

  lemma {:induction false} VerdictIff(servers: seq<Server>, from: nat)
    requires from <= |servers| && FaultlessUpTo(servers, from)
    ensures Verdict(servers, from).None? <==> Valid(servers)
    decreases |servers| - from
  {
    hide Fault, Valid;
    if from == |servers| {
      ValidIff(servers);
    } else if Fault(servers, from).Some? {
      FaultAt(servers, from);
      ValidIff(servers);
    } else {
      OneMoreFaultless(servers, from);
      VerdictIff(servers, from + 1);
    }
  }

  /** Accepts exactly the valid tables, and reports the fault of the first server that has one. */
  method Validate(servers: seq<Server>) returns (error: Option<string>)
    ensures error == Verdict(servers, 0)
    ensures error.None? <==> Valid(servers)
  {
    VerdictIff(servers, 0);
    hide Valid, FaultlessUpTo, Usable;
    var i := 0;
    while i < |servers|
      invariant i <= |servers| && Verdict(servers, i) == Verdict(servers, 0)
    {
      var s := servers[i];
      if s.enabled {
        if s.name == [] || s.transport.UnknownTransport? {
          return Some("sc.config.invalid_mcp_server");
        }
        if s.transport.Stdio? && s.command == [] {
          return Some("sc.config.invalid_mcp_stdio_server");
        }
        if (s.transport.Sse? || s.transport.Http?) && s.url == [] {
          return Some("sc.config.invalid_mcp_remote_server");
        }
        var j := i + 1;
        while j < |servers|
          invariant i < j <= |servers|
          invariant forall k :: i < k < j && servers[k].enabled ==> servers[k].name != s.name
        {
          if servers[j].enabled && servers[j].name == s.name {
            return Some("sc.config.duplicate_mcp_server");
          }
          j := j + 1;
        }
      }
      i := i + 1;
    }
    return None;
  }

  lemma FaultAt(servers: seq<Server>, i: nat)
    requires i < |servers| && Fault(servers, i).Some?
    ensures !FaultlessUpTo(servers, |servers|)
  {
  }

  lemma OneMoreFaultless(servers: seq<Server>, i: nat)
    requires i < |servers| && FaultlessUpTo(servers, i) && Fault(servers, i).None?
    ensures FaultlessUpTo(servers, i + 1)
  {
  }

  /** The key of a refused table is that of its first defect: a server without a name or a transport, one
      without its command or address, or the earlier one of two namesakes. */
  lemma FirstDefect(servers: seq<Server>, i: nat)
    requires i < |servers| && servers[i].enabled && FaultlessUpTo(servers, i)
    ensures var s, key := servers[i], Verdict(servers, 0);
            && (s.name == [] || s.transport.UnknownTransport? ==> key == Some("sc.config.invalid_mcp_server"))
            && (s.name != [] && s.transport.Stdio? && s.command == [] ==>
                  key == Some("sc.config.invalid_mcp_stdio_server"))
            && (s.name != [] && (s.transport.Sse? || s.transport.Http?) && s.url == [] ==>
                  key == Some("sc.config.invalid_mcp_remote_server"))
            && (Usable(s) && (exists j :: i < j < |servers| && servers[j].enabled && servers[j].name == s.name) ==>
                  key == Some("sc.config.duplicate_mcp_server"))
  {
    if Fault(servers, i).Some? {
      VerdictReaches(servers, i);
    }
  }

  lemma {:induction false} VerdictReaches(servers: seq<Server>, i: nat)
    requires i <= |servers| && FaultlessUpTo(servers, i)
    ensures Verdict(servers, 0) == Verdict(servers, i)
  {
    hide Fault;
    if i > 0 {
      VerdictReaches(servers, i - 1);
      assert Fault(servers, i - 1).None?;
    }
  }

  // ---- Lookup by name --------------------------------------------------------------------------

  /** The first server of a name, enabled or not. */
  method FindByName(servers: seq<Server>, name: string) returns (k: nat)
    ensures k <= |servers| && (k < |servers| ==> servers[k].name == name)
    ensures forall i :: 0 <= i < k ==> servers[i].name != name
  {
    k := 0;
    while k < |servers|
      invariant k <= |servers|
      invariant forall i :: 0 <= i < k ==> servers[i].name != name
    {
      if servers[k].name == name {
        return;
      }
      k := k + 1;
    }
  }

  ghost predicate FoundAt(servers: seq<Server>, name: string, k: nat) {
    && k < |servers| && servers[k].name == name
    && forall i :: 0 <= i < k ==> servers[i].name != name
  }

  /** In a valid table, looking up the name of an enabled server finds that server exactly when no
      disabled one of its name stands before it: validation does not look at disabled servers. */
  lemma EnabledIsFound(servers: seq<Server>, k: nat)
    requires Valid(servers) && k < |servers| && servers[k].enabled
    ensures FoundAt(servers, servers[k].name, k)
            <==> forall i :: 0 <= i < k && servers[i].name == servers[k].name ==> servers[i].enabled
  {
    forall i | 0 <= i < k && servers[i].enabled
      ensures servers[i].name != servers[k].name
    {
    }
  }

  /** Any usable server with a disabled namesake in front of it. */
  lemma DisabledHides(server: Server)
    requires server.enabled && Usable(server)
    ensures var servers := [server.(enabled := false), server];
            Valid(servers) && FoundAt(servers, server.name, 0) && !FoundAt(servers, server.name, 1)
  {
    var servers := [server.(enabled := false), server];
    assert servers[0].name == server.name;
  }

  /** A write that skips an index leaves an enabled server without a name, so the table is refused. */
  lemma GapIsRefused(s: State, e: Effect)
    requires e.SetServer? && Fits(e.slot, e.slotValue) && e.index > |s.servers|
    ensures !Valid(ApplyEffect(s, e).servers)
    ensures Fault(ApplyEffect(s, e).servers, |s.servers|) == Some("sc.config.invalid_mcp_server")
  {
    hide SetSlot;
    var after := ApplyEffect(s, e).servers;
    assert after[|s.servers|] == FreshServer(DeferredFlag(s));
  }
}
