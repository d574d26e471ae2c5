/** The modulo distribution (serverManager/ModuloDistri.cpp, serverManager/ModuloDistri.h). */
module ModuloDistri {
  import opened Collections
  import opened Servers

  // A lookup can answer every server of the list, so all answers are live exactly when all
  // listed servers are.
  lemma AnswersAreListed(servers: seq<Server>, live: set<Server>)
    requires servers != []
    ensures (forall h: nat :: servers[h % |servers|] in live) <==> (forall s :: s in servers ==> s in live)
  {
    if forall h: nat :: servers[h % |servers|] in live {
      forall i | 0 <= i < |servers|
        ensures servers[i] in live
      {
        assert i % |servers| == i;
      }
    }
  }

  // The servers of a list added to a modulo distribution: no server is listed twice and all
  // are live exactly when nothing was listed before.
  lemma OnlyEmptyAgrees(before: seq<Server>, added: seq<Server>, live: set<Server>)
    requires NoDuplicates(added) && forall s :: s in added <==> s in live
    ensures NoDuplicates(before + added) && (forall s :: s in before + added ==> s in live) <==> before == []
  {
    if before == [] {
      assert before + added == added;
    } else {
      var all := before + added;
      assert all[0] == before[0];
      if before[0] in live {
        var i :| 0 <= i < |added| && added[i] == before[0];
        assert all[|before| + i] == all[0];
      } else {
        assert all[0] in all;
      }
    }
  }

  class ModuloDistri {
    var servers: seq<Server>

    constructor ()
      ensures servers == []
    {
      servers := [];
    }

    method Add(server: Server)
      modifies this
      ensures servers == old(servers) + [server]
    {
      servers := servers + [server];
    }

    // Erases the first occurrence.
    method Remove(server: Server)
      modifies this
      ensures server !in old(servers) ==> servers == old(servers)
      ensures server in old(servers) ==>
                exists k :: 0 <= k < |old(servers)| && old(servers)[k] == server && server !in old(servers)[..k] &&
                            servers == old(servers)[..k] + old(servers)[k + 1..]
    {
      var k := 0;
      while k < |servers| && servers[k] != server
        invariant 0 <= k <= |servers| && server !in servers[..k]
      {
        k := k + 1;
      }
      if k < |servers| {
        servers := servers[..k] + servers[k + 1..];
      }
    }

    method Get(hash: nat) returns (answer: Option<Server>)
      ensures answer == None <==> servers == []
      ensures servers != [] ==> answer == Some(servers[hash % |servers|]) && answer.value in servers
    {
      answer := if |servers| != 0 then Some(servers[hash % |servers|]) else None;
    }

    // Clearing a modulo distribution does nothing.
    method Clear()
      ensures servers == old(servers)
    {
    }
  }

  lemma RemovedMembers(servers: seq<Server>, k: nat)
    requires NoDuplicates(servers) && k < |servers|
    ensures var r := servers[..k] + servers[k + 1..];
            NoDuplicates(r) && forall s :: s in r <==> s in servers && s != servers[k]
  {
    var r := servers[..k] + servers[k + 1..];
    forall s | s in servers && s != servers[k]
      ensures s in r
    {
      var i :| 0 <= i < |servers| && servers[i] == s;
      assert r[if i < k then i else i - 1] == s;
    }
    forall s | s in r
      ensures s in servers && s != servers[k]
    {
      var i :| 0 <= i < |r| && r[i] == s;
      assert servers[if i < k then i else i + 1] == s;
    }
  }
}
