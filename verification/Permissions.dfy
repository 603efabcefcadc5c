/** HasAssetPermission: the recursive node query and the permission it looks for. */
module Permissions {
  import opened Options
  import opened ActionList

  type Id = int

  datatype Permission = Permission(isActive: bool, start: Option<int>, expired: Option<int>, actions: string)

  /** The tables the query reads; link tables are sets of (left id, right id) rows. */
  datatype Store = Store(
    nodes: map<Id, Option<Id>>,          // id, parent_id
    assets: map<Id, Option<Id>>,         // id, node_id
    assetNodes: set<(Id, Id)>,           // asset_id, node_id
    permissions: map<Id, Permission>,
    permUsers: set<(Id, Id)>,            // permission_id, user_id
    permUserGroups: set<(Id, Id)>,       // permission_id, group_id
    groupUsers: set<(Id, Id)>,           // group_id, user_id
    permAssets: set<(Id, Id)>,           // permission_id, asset_id
    permNodes: set<(Id, Id)>,            // permission_id, node_id
    permAccounts: set<(Id, Id)>)         // permission_id, account_id

  // ---------------------------------------------------------------- WITH RECURSIVE asset_node_ids

  /** The two non-recursive terms: the asset's own node and its linked nodes. */
  function StartNodes(s: Store, asset: Id): set<Id> {
    set n | n in s.nodes && ((asset in s.assets && s.assets[asset] == Some(n)) || (asset, n) in s.assetNodes)
  }

  /** The recursive term: the parents, among the nodes, of the rows added last. */
  function Parents(s: Store, rows: set<Id>): set<Id> {
    set n | n in s.nodes && exists c :: c in rows && c in s.nodes && s.nodes[c] == Some(n)
  }

  /** UNION evaluation: rows already found are not worked on again. */
  function Recurse(s: Store, found: set<Id>, working: set<Id>): set<Id>
    requires found <= s.nodes.Keys
    decreases s.nodes.Keys - found, working != {}
  {
    var added := Parents(s, working) - found;
    if added == {} then found else Recurse(s, found + added, added)
  }

  function AssetNodeIds(s: Store, asset: Id): set<Id> {
    Recurse(s, StartNodes(s, asset), StartNodes(s, asset))
  }

  /** A chain of nodes in which every next one is the parent of the one before. */
  ghost predicate IsChain(s: Store, chain: seq<Id>) {
    && chain != []
    && (forall i :: 0 <= i < |chain| ==> chain[i] in s.nodes)
    && (forall i :: 0 <= i < |chain| - 1 ==> s.nodes[chain[i]] == Some(chain[i + 1]))
  }

  /** `n` is a node of the asset or an ancestor of one: a chain of parent links leads to it
      from the asset's own node or from a node a row of asset_nodes links to the asset. */
  ghost predicate IsAncestor(s: Store, asset: Id, n: Id) {
    exists chain ::
      && IsChain(s, chain) && chain[|chain| - 1] == n
      && ((asset in s.assets && s.assets[asset] == Some(chain[0])) || (asset, chain[0]) in s.assetNodes)
  }

  ghost predicate Closed(s: Store, ids: set<Id>) {
    Parents(s, ids) <= ids
  }

  lemma {:induction false} RecurseClosed(s: Store, found: set<Id>, working: set<Id>)
    requires found <= s.nodes.Keys && working <= found && Parents(s, found - working) <= found
    ensures found <= Recurse(s, found, working) && Closed(s, Recurse(s, found, working))
    decreases s.nodes.Keys - found
  {
    var added := Parents(s, working) - found;
    if added == {} {
      assert Parents(s, found) <= Parents(s, found - working) + Parents(s, working);
    } else {
      assert Parents(s, found + added - added) <= found + added by {
        assert found + added - added == found;
        assert Parents(s, found) <= Parents(s, found - working) + Parents(s, working);
      }
      RecurseClosed(s, found + added, added);
    }
  }

  lemma {:induction false} RecurseSound(s: Store, asset: Id, found: set<Id>, working: set<Id>)
    requires found <= s.nodes.Keys && working <= found
    requires forall n :: n in found ==> IsAncestor(s, asset, n)
    ensures forall n :: n in Recurse(s, found, working) ==> IsAncestor(s, asset, n)
    decreases s.nodes.Keys - found
  {
    var added := Parents(s, working) - found;
    if added != {} {
      forall n | n in added ensures IsAncestor(s, asset, n) {
        var c :| c in working && s.nodes[c] == Some(n);
        var chain :| IsChain(s, chain) && chain[|chain| - 1] == c
                     && ((asset in s.assets && s.assets[asset] == Some(chain[0])) || (asset, chain[0]) in s.assetNodes);
        assert IsChain(s, chain + [n]) && (chain + [n])[|chain|] == n && (chain + [n])[0] == chain[0];
      }
      RecurseSound(s, asset, found + added, added);
    }
  }

  lemma {:induction false} ChainInside(s: Store, ids: set<Id>, chain: seq<Id>, k: nat)
    requires Closed(s, ids) && IsChain(s, chain) && chain[0] in ids && k < |chain|
    ensures chain[k] in ids
  {
    if k > 0 {
      ChainInside(s, ids, chain, k - 1);
      var c := chain[k - 1];
      assert c in ids && c in s.nodes && s.nodes[c] == Some(chain[k - 1 + 1]);
      assert chain[k] in s.nodes;
      assert chain[k] in Parents(s, ids);
    }
  }

  /** On every node graph, cyclic parent links included, the recursive query finds exactly
      the asset's nodes and their ancestors. */
  lemma NodeIdsAreAncestors(s: Store, asset: Id)
    ensures forall n :: n in AssetNodeIds(s, asset) <==> IsAncestor(s, asset, n)
  {
    hide Recurse;
    var start := StartNodes(s, asset);
    assert start - start == {} && Parents(s, start - start) == {};
    RecurseClosed(s, start, start);
    forall n | n in start ensures IsAncestor(s, asset, n) {
      assert IsChain(s, [n]) && [n][0] == n;
    }
    RecurseSound(s, asset, start, start);
    forall n | IsAncestor(s, asset, n) ensures n in AssetNodeIds(s, asset) {
      var chain :| IsChain(s, chain) && chain[|chain| - 1] == n
                   && ((asset in s.assets && s.assets[asset] == Some(chain[0])) || (asset, chain[0]) in s.assetNodes);
      ChainInside(s, AssetNodeIds(s, asset), chain, |chain| - 1);
    }
  }

  // ---------------------------------------------------------------- the permission query

  predicate InWindow(p: Permission, now: int) {
    && (p.start.None? || p.start.value <= now)
    && (p.expired.None? || p.expired.value > now)
  }

  /** The right ids a link table holds for a permission. */
  function Linked(rows: set<(Id, Id)>, id: Id): set<Id> {
    set r | r in rows && r.0 == id :: r.1
  }

  lemma LinkedIff(rows: set<(Id, Id)>, id: Id)
    ensures forall x :: x in Linked(rows, id) <==> (id, x) in rows
    ensures Linked(rows, id) == {} <==> forall x :: (id, x) !in rows
  {
    forall x | (id, x) in rows ensures x in Linked(rows, id) {
      assert (id, x).1 == x;
    }
    if forall x :: (id, x) !in rows {
      forall r | r in rows ensures r.0 != id {
        assert r == (r.0, r.1);
      }
      assert Linked(rows, id) == {};
    }
  }

  /** The WHERE clause for one row of asset_permissions. */
  predicate Matches(s: Store, id: Id, user: Id, asset: Id, account: Id, action: string, now: int)
    requires id in s.permissions
  {
    var p := s.permissions[id];
    && p.isActive
    && InWindow(p, now)
    && Like("," + p.actions + ",", "%," + action + ",%")
    && ((id, user) in s.permUsers
        || exists g :: g in Linked(s.permUserGroups, id) && (g, user) in s.groupUsers)
    && ((id, asset) in s.permAssets
        || exists n :: n in Linked(s.permNodes, id) && n in AssetNodeIds(s, asset))
    && ((id, account) in s.permAccounts
        || Linked(s.permAccounts, id) == {})
  }

  /** COUNT(1) > 0. */
  function HasAssetPermission(s: Store, user: Id, asset: Id, account: Id, action: string, now: int): bool {
    |set id | id in s.permissions && Matches(s, id, user, asset, account, action, now)| > 0
  }

  /** A permission as its author meant it, but for the action: its window, and the linked
      users, groups, assets, nodes and accounts. */
  ghost predicate Covers(s: Store, id: Id, user: Id, asset: Id, account: Id, now: int)
    requires id in s.permissions
  {
    && s.permissions[id].isActive
    && (s.permissions[id].start.Some? ==> s.permissions[id].start.value <= now)
    && (s.permissions[id].expired.Some? ==> now < s.permissions[id].expired.value)
    && ((id, user) in s.permUsers || exists g: Id :: (id, g) in s.permUserGroups && (g, user) in s.groupUsers)
    && ((id, asset) in s.permAssets || exists n: Id :: (id, n) in s.permNodes && IsAncestor(s, asset, n))
    && ((id, account) in s.permAccounts || forall a: Id :: (id, a) !in s.permAccounts)
  }

  /** Every stored action text came from NormalizeActions. */
  ghost predicate Listed(s: Store, listed: map<Id, seq<string>>) {
    forall id :: id in s.permissions ==> id in listed && s.permissions[id].actions == Join(Granted(listed[id]))
  }

  lemma MatchesIffCovers(s: Store, listed: map<Id, seq<string>>, id: Id,
                         user: Id, asset: Id, account: Id, action: string, now: int)
    requires Listed(s, listed) && id in s.permissions
    ensures Matches(s, id, user, asset, account, action, now)
            <==> Covers(s, id, user, asset, account, now) && Grants(listed[id], action)
  {
    hide Like, AssetNodeIds, IsAncestor, Granted, Join, Linked, Grants;
    PatternFindsGranted(listed[id], action);
    NodeIdsAreAncestors(s, asset);
    LinkedIff(s.permUserGroups, id);
    LinkedIff(s.permNodes, id);
    LinkedIff(s.permAccounts, id);
    assert (exists g :: g in Linked(s.permUserGroups, id) && (g, user) in s.groupUsers)
           <==> exists g: Id :: (id, g) in s.permUserGroups && (g, user) in s.groupUsers;
    assert (exists n :: n in Linked(s.permNodes, id) && n in AssetNodeIds(s, asset))
           <==> exists n: Id :: (id, n) in s.permNodes && IsAncestor(s, asset, n);
  }

  /** The query answers yes exactly when some permission covers the request and grants it. */
  lemma HasPermissionIffCovered(s: Store, listed: map<Id, seq<string>>,
                                user: Id, asset: Id, account: Id, action: string, now: int)
    requires Listed(s, listed)
    ensures HasAssetPermission(s, user, asset, account, action, now)
            <==> exists id :: id in s.permissions && Covers(s, id, user, asset, account, now)
                              && Grants(listed[id], action)
  {
    hide Matches, Covers, Grants;
    var rows := set id | id in s.permissions && Matches(s, id, user, asset, account, action, now);
    forall id | id in s.permissions
      ensures Matches(s, id, user, asset, account, action, now)
              <==> Covers(s, id, user, asset, account, now) && Grants(listed[id], action)
    {
      MatchesIffCovers(s, listed, id, user, asset, account, action, now);
    }
    if id :| id in rows {
      assert |rows| > 0;
    } else {
      assert rows == {};
    }
    if id :| id in s.permissions && Covers(s, id, user, asset, account, now) && Grants(listed[id], action) {
      assert id in rows;
    }
  }

  /** For an action without wildcards and commas, and lists without commas: exactly when some
      permission covers the request and lists the action, or lists none and it is connect. */
  lemma PlainActionIffListed(s: Store, listed: map<Id, seq<string>>,
                             user: Id, asset: Id, account: Id, action: string, now: int)
    requires Listed(s, listed) && Literal(action) && ',' !in action
    requires forall id, x :: id in s.permissions && x in listed[id] ==> ',' !in x
    ensures HasAssetPermission(s, user, asset, account, action, now)
            <==> exists id :: id in s.permissions && Covers(s, id, user, asset, account, now)
                              && action in Granted(listed[id])
  {
    hide HasAssetPermission, Covers, Grants, Granted;
    HasPermissionIffCovered(s, listed, user, asset, account, action, now);
    forall id | id in s.permissions
      ensures Grants(listed[id], action) <==> action in Granted(listed[id])
    {
      GrantsPlainAction(listed[id], action);
    }
  }
}
