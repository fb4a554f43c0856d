/** The administrator dashboard: statistics over the account records, the
    user-table filters and the action buttons shown on each row, the role
    chart counts, the top-five selection of the prediction chart, and the
    guarded wrappers through which the dashboard changes the identity store. */
module Admin {
  import opened Common
  import opened Accounts
  import opened AuthBackup
  import PasswordHash

  const FILTER_ALL: string := "all"
  const TOP_USERS: nat := 5

  // ---------------------------------------------------------------------
  // Counting over the record list

  /** Number of records whose status is exactly `status`. */
  function CountStatus(all: seq<Account>, status: string): (n: nat)
    ensures n <= |all|
  {
    if all == [] then 0 else (if all[0].status == status then 1 else 0) + CountStatus(all[1..], status)
  }

  /** Number of records whose role is exactly `role`. */
  function CountRole(all: seq<Account>, role: string): (n: nat)
    ensures n <= |all|
  {
    if all == [] then 0 else (if all[0].role == role then 1 else 0) + CountRole(all[1..], role)
  }

  function SumPredictions(all: seq<Account>): nat
  {
    if all == [] then 0 else all[0].predictions + SumPredictions(all[1..])
  }

  datatype SystemStats = SystemStats(
    totalUsers: nat,
    activeUsers: nat,
    totalPredictions: nat,
    avgPredictionsPerUser: real,
    admins: nat)

  /** The statistics panel: the number of accounts, those whose status is
      `active`, the predictions summed over all accounts, their average per
      account (zero when there are none) and the size of the admin set. */
  function ComputeStats(all: seq<Account>, adminUsers: set<string>): (s: SystemStats)
    ensures s.totalUsers == |all| && s.admins == |adminUsers|
    ensures s.activeUsers == CountStatus(all, STATUS_ACTIVE) && s.totalPredictions == SumPredictions(all)
    ensures s.activeUsers <= s.totalUsers
    ensures s.totalUsers == 0 ==> s.totalPredictions == 0 && s.avgPredictionsPerUser == 0.0
    ensures s.totalUsers > 0 ==> s.avgPredictionsPerUser * (s.totalUsers as real) == s.totalPredictions as real
    ensures s.avgPredictionsPerUser >= 0.0
  {
    var total := SumPredictions(all);
    SystemStats(|all|, CountStatus(all, STATUS_ACTIVE), total,
                if |all| > 0 then total as real / |all| as real else 0.0,
                |adminUsers|)
  }

  lemma {:induction false} SumPredictionsConcat(s: seq<Account>, t: seq<Account>)
    ensures SumPredictions(s + t) == SumPredictions(s) + SumPredictions(t)
  {
    if s == [] {
      assert s + t == t;
    } else {
      assert (s + t)[1..] == s[1..] + t;
      SumPredictionsConcat(s[1..], t);
    }
  }

  lemma {:induction false} CountStatusConcat(s: seq<Account>, t: seq<Account>, status: string)
    ensures CountStatus(s + t, status) == CountStatus(s, status) + CountStatus(t, status)
  {
    if s == [] {
      assert s + t == t;
    } else {
      assert (s + t)[1..] == s[1..] + t;
      CountStatusConcat(s[1..], t, status);
    }
  }

  /** The records other than the one at position `j`. */
  function RemoveAt<T>(s: seq<T>, j: nat): (r: seq<T>)
    requires j < |s|
    ensures |r| == |s| - 1
    ensures forall i :: 0 <= i < |r| ==> r[i] == if i < j then s[i] else s[i + 1]
  {
    s[..j] + s[j + 1..]
  }

  lemma RemoveAtMultiset<T>(s: seq<T>, j: nat)
    requires j < |s|
    ensures multiset(s) == multiset(RemoveAt(s, j)) + multiset{s[j]}
    ensures multiset(RemoveAt(s, j)) == multiset(s) - multiset{s[j]}
  {
    assert s == s[..j] + [s[j]] + s[j + 1..];
  }

  lemma RemoveAtTotals(s: seq<Account>, j: nat, status: string)
    requires j < |s|
    ensures SumPredictions(s) == s[j].predictions + SumPredictions(RemoveAt(s, j))
    ensures CountStatus(s, status) == (if s[j].status == status then 1 else 0) + CountStatus(RemoveAt(s, j), status)
  {
    assert s == s[..j] + ([s[j]] + s[j + 1..]);
    SumPredictionsConcat(s[..j], [s[j]] + s[j + 1..]);
    SumPredictionsConcat([s[j]], s[j + 1..]);
    SumPredictionsConcat(s[..j], s[j + 1..]);
    CountStatusConcat(s[..j], [s[j]] + s[j + 1..], status);
    CountStatusConcat([s[j]], s[j + 1..], status);
    CountStatusConcat(s[..j], s[j + 1..], status);
  }

  /** The status count and the prediction total do not depend on the order
      of the records. */
  lemma {:induction false} PermutationKeepsTotals(a: seq<Account>, b: seq<Account>, status: string)
    requires multiset(a) == multiset(b)
    ensures SumPredictions(a) == SumPredictions(b)
    ensures CountStatus(a, status) == CountStatus(b, status)
    decreases |a|
  {
    if a == [] {
      assert |b| == |multiset(b)| == 0;
    } else {
      assert a[0] in multiset(b) by {
        assert a[0] in multiset(a);
      }
      var j :| 0 <= j < |b| && b[j] == a[0];
      RemoveAtMultiset(a, 0);
      RemoveAtMultiset(b, j);
      PermutationKeepsTotals(RemoveAt(a, 0), RemoveAt(b, j), status);
      RemoveAtTotals(a, 0, status);
      RemoveAtTotals(b, j, status);
    }
  }

  /** Dropping one key from an enumeration enumerates the rest of the map. */
  lemma RemoveFromEnumeration(ks: seq<string>, all: seq<Account>, users: map<string, Account>, j: nat)
    requires EnumeratesBy(ks, all, users) && j < |ks|
    ensures EnumeratesBy(RemoveAt(ks, j), RemoveAt(all, j), users - {ks[j]})
  {
    RemoveKeepsRecords(ks, all, users, j);
    RemoveKeepsDistinct(ks, j);
    RemoveKeepsKeys(ks, users, j);
  }

  lemma RemoveKeepsRecords(ks: seq<string>, all: seq<Account>, users: map<string, Account>, j: nat)
    requires EnumeratesBy(ks, all, users) && j < |ks|
    ensures forall i :: 0 <= i < |ks| - 1 ==>
              RemoveAt(ks, j)[i] in users - {ks[j]} && RemoveAt(all, j)[i] == (users - {ks[j]})[RemoveAt(ks, j)[i]]
  {
    var ks', all' := RemoveAt(ks, j), RemoveAt(all, j);
    forall i | 0 <= i < |ks'| ensures ks'[i] in users - {ks[j]} && all'[i] == users[ks'[i]] {
      var src := if i < j then i else i + 1;
      assert ks'[i] == ks[src] && all'[i] == all[src];
    }
  }

  lemma RemoveKeepsDistinct(ks: seq<string>, j: nat)
    requires j < |ks|
    requires forall i, i2 :: 0 <= i < i2 < |ks| ==> ks[i] != ks[i2]
    ensures forall i, i2 :: 0 <= i < i2 < |ks| - 1 ==> RemoveAt(ks, j)[i] != RemoveAt(ks, j)[i2]
  {
    var ks' := RemoveAt(ks, j);
    forall i, i2 | 0 <= i < i2 < |ks'| ensures ks'[i] != ks'[i2] {
      var src, src2 := if i < j then i else i + 1, if i2 < j then i2 else i2 + 1;
      assert ks'[i] == ks[src] && ks'[i2] == ks[src2];
    }
  }

  lemma RemoveKeepsKeys(ks: seq<string>, users: map<string, Account>, j: nat)
    requires j < |ks|
    requires forall k :: k in users ==> k in ks
    ensures forall k :: k in users - {ks[j]} ==> k in RemoveAt(ks, j)
  {
    var ks' := RemoveAt(ks, j);
    forall k | k in users - {ks[j]} ensures k in ks' {
      var m :| 0 <= m < |ks| && ks[m] == k;
      if m < j {
        assert ks'[m] == k;
      } else {
        assert ks'[m - 1] == k;
      }
    }
  }

  /** An enumeration lists exactly as many keys as the map has. */
  lemma {:induction false} EnumerationLength(ks: seq<string>, all: seq<Account>, users: map<string, Account>)
    requires EnumeratesBy(ks, all, users)
    ensures |ks| == |all| == |users|
    decreases |ks|
  {
    if ks == [] {
      assert users.Keys == {};
    } else {
      RemoveFromEnumeration(ks, all, users, 0);
      EnumerationLength(RemoveAt(ks, 0), RemoveAt(all, 0), users - {ks[0]});
      assert (users - {ks[0]}).Keys == users.Keys - {ks[0]};
    }
  }

  /** Two enumerations of the same map list the same records, possibly in
      another order. */
  lemma {:induction false} EnumerationsPermute(ks: seq<string>, a: seq<Account>, ks2: seq<string>, b: seq<Account>,
                                               users: map<string, Account>)
    requires EnumeratesBy(ks, a, users) && EnumeratesBy(ks2, b, users)
    ensures multiset(a) == multiset(b)
    decreases |ks|
  {
    if ks == [] {
      EnumerationLength(ks2, b, users);
      EnumerationLength(ks, a, users);
    } else {
      var k := ks[0];
      assert k in ks2;
      var j :| 0 <= j < |ks2| && ks2[j] == k;
      RemoveFromEnumeration(ks, a, users, 0);
      RemoveFromEnumeration(ks2, b, users, j);
      EnumerationsPermute(RemoveAt(ks, 0), RemoveAt(a, 0), RemoveAt(ks2, j), RemoveAt(b, j), users - {k});
      RemoveAtMultiset(a, 0);
      RemoveAtMultiset(b, j);
    }
  }

  /** The statistics of the store do not depend on the order in which its
      records are listed. */
  lemma StatsIndependentOfOrder(a: seq<Account>, b: seq<Account>, users: map<string, Account>, adminUsers: set<string>)
    requires Enumerates(a, users) && Enumerates(b, users)
    ensures ComputeStats(a, adminUsers) == ComputeStats(b, adminUsers)
  {
    var ks :| EnumeratesBy(ks, a, users);
    var ks2 :| EnumeratesBy(ks2, b, users);
    EnumerationsPermute(ks, a, ks2, b, users);
    PermutationKeepsTotals(a, b, STATUS_ACTIVE);
    assert |a| == |multiset(a)| == |multiset(b)| == |b|;
  }

  // ---------------------------------------------------------------------
  // Table filters

  function KeepStatus(all: seq<Account>, status: string): seq<Account>
  {
    if all == [] then []
    else if all[0].status == status then [all[0]] + KeepStatus(all[1..], status)
    else KeepStatus(all[1..], status)
  }

  function KeepRole(all: seq<Account>, role: string): seq<Account>
  {
    if all == [] then []
    else if all[0].role == role then [all[0]] + KeepRole(all[1..], role)
    else KeepRole(all[1..], role)
  }

  /** The table's two filters, applied one after the other; "all" skips one.
      Together they keep exactly the records passing both, in their original
      order; with both filters at "all" every record stays. */
  function FilterUsers(all: seq<Account>, status: string, role: string): (r: seq<Account>)
    ensures r == Matching(all, status, role)
    ensures status == FILTER_ALL && role == FILTER_ALL ==> r == all
  {
    MatchingAllIsIdentity(all);
    StatusFilterMatches(all, status);
    var byStatus := if status != FILTER_ALL then KeepStatus(all, status) else all;
    if role != FILTER_ALL then
      KeepRoleOfMatching(all, status, role);
      KeepRole(byStatus, role)
    else byStatus
  }

  /** Whether a record passes both filters. */
  predicate Shown(a: Account, status: string, role: string)
  {
    (status == FILTER_ALL || a.status == status) && (role == FILTER_ALL || a.role == role)
  }

  /** Reference definition: one pass keeping the records that pass both filters. */
  function Matching(all: seq<Account>, status: string, role: string): seq<Account>
  {
    if all == [] then []
    else if Shown(all[0], status, role) then [all[0]] + Matching(all[1..], status, role)
    else Matching(all[1..], status, role)
  }

  /** `a` is `b` with some elements removed, the rest in order. */
  predicate IsSubsequence(a: seq<Account>, b: seq<Account>)
    decreases |b|
  {
    if b == [] then a == []
    else (a != [] && a[0] == b[0] && IsSubsequence(a[1..], b[1..])) || IsSubsequence(a, b[1..])
  }

  lemma {:induction false} KeepRoleOfMatching(all: seq<Account>, status: string, role: string)
    requires role != FILTER_ALL
    ensures KeepRole(Matching(all, status, FILTER_ALL), role) == Matching(all, status, role)
  {
    if all != [] {
      KeepRoleOfMatching(all[1..], status, role);
      if Shown(all[0], status, FILTER_ALL) {
        assert ([all[0]] + Matching(all[1..], status, FILTER_ALL))[1..] == Matching(all[1..], status, FILTER_ALL);
      }
    }
  }

  lemma {:induction false} KeepStatusIsMatching(all: seq<Account>, status: string)
    requires status != FILTER_ALL
    ensures KeepStatus(all, status) == Matching(all, status, FILTER_ALL)
  {
    if all != [] {
      KeepStatusIsMatching(all[1..], status);
    }
  }

  lemma {:induction false} KeepRoleIsMatching(all: seq<Account>, role: string)
    requires role != FILTER_ALL
    ensures KeepRole(all, role) == Matching(all, FILTER_ALL, role)
  {
    if all != [] {
      KeepRoleIsMatching(all[1..], role);
    }
  }

  lemma {:induction false} MatchingAllIsIdentity(all: seq<Account>)
    ensures Matching(all, FILTER_ALL, FILTER_ALL) == all
  {
    if all != [] {
      MatchingAllIsIdentity(all[1..]);
    }
  }

  lemma StatusFilterMatches(all: seq<Account>, status: string)
    ensures (if status != FILTER_ALL then KeepStatus(all, status) else all) == Matching(all, status, FILTER_ALL)
  {
    if status != FILTER_ALL {
      KeepStatusIsMatching(all, status);
    } else {
      MatchingAllIsIdentity(all);
    }
  }

  /** A record is listed exactly when it is in the input and passes both filters. */
  lemma {:induction false} MatchingMembership(all: seq<Account>, status: string, role: string, a: Account)
    ensures a in Matching(all, status, role) <==> a in all && Shown(a, status, role)
  {
    if all != [] {
      MatchingMembership(all[1..], status, role, a);
      assert all == [all[0]] + all[1..];
    }
  }

  /** The filtered table keeps the records in their original order. */
  lemma {:induction false} MatchingIsSubsequence(all: seq<Account>, status: string, role: string)
    ensures IsSubsequence(Matching(all, status, role), all)
  {
    if all != [] {
      MatchingIsSubsequence(all[1..], status, role);
      var rest := Matching(all[1..], status, role);
      if Shown(all[0], status, role) {
        assert ([all[0]] + rest)[1..] == rest;
      }
    }
  }

  /** The activity count of the statistics equals the length of the table
      filtered to active accounts. */
  lemma {:induction false} ActiveCountIsFilterLength(all: seq<Account>)
    ensures CountStatus(all, STATUS_ACTIVE) == |FilterUsers(all, STATUS_ACTIVE, FILTER_ALL)|
  {
    CountIsMatchingLength(all);
  }

  lemma {:induction false} CountIsMatchingLength(all: seq<Account>)
    ensures CountStatus(all, STATUS_ACTIVE) == |Matching(all, STATUS_ACTIVE, FILTER_ALL)|
  {
    if all != [] {
      CountIsMatchingLength(all[1..]);
    }
  }

  // ---------------------------------------------------------------------
  // Row actions

  datatype RoleAction = Demote | Promote | NoRoleAction
  datatype StatusAction = Deactivate | Activate | NoStatusAction
  datatype RowActions = RowActions(role: RoleAction, status: StatusAction, delete: bool)

  /** The buttons a table row offers besides Edit. */
  function ActionsFor(a: Account, adminUsers: set<string>): RowActions
  {
    RowActions(
      if a.username in adminUsers && a.username != BOOTSTRAP_ADMIN then Demote
      else if a.role == ROLE_USER then Promote
      else NoRoleAction,
      if a.status == STATUS_ACTIVE && a.username != BOOTSTRAP_ADMIN then Deactivate
      else if a.status == STATUS_INACTIVE then Activate
      else NoStatusAction,
      a.username != BOOTSTRAP_ADMIN)
  }

  /** The bootstrap account's row offers neither demotion, deactivation nor
      deletion, whatever its stored role and status. */
  lemma BootstrapRowProtected(a: Account, adminUsers: set<string>)
    requires a.username == BOOTSTRAP_ADMIN
    ensures ActionsFor(a, adminUsers).role != Demote
    ensures ActionsFor(a, adminUsers).status != Deactivate
    ensures !ActionsFor(a, adminUsers).delete
  {
  }

  /** In a consistent store the role button is decided by the role alone:
      Demote exactly for admins other than the bootstrap account, Promote
      exactly for plain users, and none for the bootstrap account. */
  lemma RoleButtonUnderConsistency(users: map<string, Account>, adminUsers: set<string>, u: string)
    requires Accounts.Consistent(users, adminUsers) && u in users
    ensures ActionsFor(users[u], adminUsers).role == Demote <==> users[u].role == ROLE_ADMIN && u != BOOTSTRAP_ADMIN
    ensures ActionsFor(users[u], adminUsers).role == Promote <==> users[u].role == ROLE_USER
    ensures u == BOOTSTRAP_ADMIN && users[u].role == ROLE_ADMIN ==> ActionsFor(users[u], adminUsers).role == NoRoleAction
  {
  }

  /** A status button never contradicts the stored status. */
  lemma StatusButtonMatchesStatus(a: Account, adminUsers: set<string>)
    ensures ActionsFor(a, adminUsers).status == Deactivate ==> a.status == STATUS_ACTIVE
    ensures ActionsFor(a, adminUsers).status == Activate <==> a.status == STATUS_INACTIVE
    ensures ActionsFor(a, adminUsers).status == NoStatusAction <==>
              (a.status == STATUS_ACTIVE && a.username == BOOTSTRAP_ADMIN) || (a.status != STATUS_ACTIVE && a.status != STATUS_INACTIVE)
  {
  }

  // ---------------------------------------------------------------------
  // Role chart

  /** The keys among `ks` whose record has the given role. */
  ghost function KeysWithRole(ks: seq<string>, m: map<string, Account>, role: string): set<string>
  {
    set k | k in ks && k in m && m[k].role == role
  }

  lemma KeysWithRoleSplit(ks: seq<string>, m: map<string, Account>, role: string)
    requires ks != [] && ks[0] in m && ks[0] !in ks[1..]
    ensures ks[0] !in KeysWithRole(ks[1..], m, role)
    ensures KeysWithRole(ks, m, role) ==
              (if m[ks[0]].role == role then {ks[0]} else {}) + KeysWithRole(ks[1..], m, role)
  {
    assert ks == [ks[0]] + ks[1..];
  }

  lemma {:induction false} CountRoleOverKeys(ks: seq<string>, all: seq<Account>, m: map<string, Account>, role: string)
    requires |ks| == |all|
    requires forall i :: 0 <= i < |ks| ==> ks[i] in m && all[i] == m[ks[i]]
    requires forall i, j :: 0 <= i < j < |ks| ==> ks[i] != ks[j]
    ensures CountRole(all, role) == |KeysWithRole(ks, m, role)|
  {
    if ks != [] {
      CountRoleOverKeys(ks[1..], all[1..], m, role);
      assert ks[0] !in ks[1..] by {
        forall i | 0 <= i < |ks[1..]| ensures ks[1..][i] != ks[0] {
          assert ks[1..][i] == ks[i + 1];
        }
      }
      KeysWithRoleSplit(ks, m, role);
    }
  }

  /** The role chart's admin slice, counted from the records, equals the size
      of the admin set that the statistics panel reports, whenever the store
      is consistent. */
  lemma AdminSliceMatchesAdminSet(users: map<string, Account>, adminUsers: set<string>, ks: seq<string>, all: seq<Account>)
    requires Accounts.Consistent(users, adminUsers)
    requires EnumeratesBy(ks, all, users)
    ensures CountRole(all, ROLE_ADMIN) == |adminUsers|
    ensures |adminUsers| <= |all|
  {
    CountRoleOverKeys(ks, all, users, ROLE_ADMIN);
    assert KeysWithRole(ks, users, ROLE_ADMIN) == adminUsers by {
      forall k ensures k in KeysWithRole(ks, users, ROLE_ADMIN) <==> k in adminUsers {
        if k in adminUsers {
          assert k in users && k in ks;
        }
      }
    }
  }

  /** Admins and regular users together never exceed the accounts listed. */
  lemma {:induction false} RoleSlicesBounded(all: seq<Account>)
    ensures CountRole(all, ROLE_ADMIN) + CountRole(all, ROLE_USER) <= |all|
  {
    if all != [] {
      RoleSlicesBounded(all[1..]);
    }
  }

  // ---------------------------------------------------------------------
  // Top users by predictions

  predicate SortedDesc(s: seq<Account>)
  {
    forall i, j :: 0 <= i < j < |s| ==> s[i].predictions >= s[j].predictions
  }

  /** Places `x` before the first record with no more predictions than it. */
  function InsertDesc(x: Account, s: seq<Account>): (r: seq<Account>)
    ensures multiset(r) == multiset(s) + multiset{x}
    ensures |r| == |s| + 1
  {
    if s == [] || x.predictions >= s[0].predictions then [x] + s
    else
      assert s == [s[0]] + s[1..];
      [s[0]] + InsertDesc(x, s[1..])
  }

  lemma {:induction false} InsertDescSorted(x: Account, s: seq<Account>)
    requires SortedDesc(s)
    ensures SortedDesc(InsertDesc(x, s))
  {
    if s != [] && x.predictions < s[0].predictions {
      var t := InsertDesc(x, s[1..]);
      InsertDescSorted(x, s[1..]);
      forall j | 0 <= j < |t| ensures s[0].predictions >= t[j].predictions {
        assert t[j] in multiset(s[1..]) + multiset{x} by {
          assert t[j] in multiset(t);
        }
        if t[j] != x {
          var k :| 0 <= k < |s[1..]| && s[1..][k] == t[j];
          assert s[k + 1] == t[j];
        }
      }
      HeadDominates(s[0], t);
    }
  }

  /** A record with at least as many predictions as every record of a
      descending list can go in front of it. */
  lemma HeadDominates(a: Account, t: seq<Account>)
    requires SortedDesc(t)
    requires forall j :: 0 <= j < |t| ==> a.predictions >= t[j].predictions
    ensures SortedDesc([a] + t)
  {
    var r := [a] + t;
    forall i, j | 0 <= i < j < |r| ensures r[i].predictions >= r[j].predictions {
      assert r[j] == t[j - 1];
      if i > 0 {
        assert r[i] == t[i - 1];
      }
    }
  }

  /** Sorting by predictions, highest first, the way the chart's comparator
      orders the records. */
  function SortByPredictions(s: seq<Account>): (r: seq<Account>)
    ensures multiset(r) == multiset(s) && |r| == |s|
  {
    if s == [] then []
    else
      assert s == [s[0]] + s[1..];
      InsertDesc(s[0], SortByPredictions(s[1..]))
  }

  lemma {:induction false} SortByPredictionsSorted(s: seq<Account>)
    ensures SortedDesc(SortByPredictions(s))
  {
    if s != [] {
      SortByPredictionsSorted(s[1..]);
      InsertDescSorted(s[0], SortByPredictions(s[1..]));
    }
  }

  /** The records the prediction chart shows: min(5, n) of them, highest
      first, taken from the input. */
  function TopByPredictions(all: seq<Account>): (top: seq<Account>)
    ensures |top| == Min(TOP_USERS, |all|)
    ensures SortedDesc(top)
    ensures multiset(top) <= multiset(all)
  {
    var sorted := SortByPredictions(all);
    SortByPredictionsSorted(all);
    var k := Min(TOP_USERS, |sorted|);
    assert sorted == sorted[..k] + sorted[k..];
    sorted[..k]
  }

  /** No record left out of the chart has more predictions than a record shown. */
  lemma TopByPredictionsBest(all: seq<Account>)
    ensures forall x, y :: x in multiset(all) - multiset(TopByPredictions(all)) && y in TopByPredictions(all)
                           ==> x.predictions <= y.predictions
  {
    var sorted := SortByPredictions(all);
    SortByPredictionsSorted(all);
    var k := Min(TOP_USERS, |sorted|);
    var top, rest := sorted[..k], sorted[k..];
    assert multiset(all) - multiset(top) == multiset(rest) by {
      assert sorted == top + rest;
    }
    SortedSplit(sorted, k);
  }

  /** In a descending sequence, nothing after position `k` beats anything before it. */
  lemma SortedSplit(sorted: seq<Account>, k: nat)
    requires SortedDesc(sorted) && k <= |sorted|
    ensures forall x, y :: x in multiset(sorted[k..]) && y in sorted[..k] ==> x.predictions <= y.predictions
  {
    forall x, y | x in multiset(sorted[k..]) && y in sorted[..k]
      ensures x.predictions <= y.predictions
    {
      var i :| 0 <= i < |sorted[k..]| && sorted[k..][i] == x;
      var j :| 0 <= j < k && sorted[..k][j] == y;
      assert sorted[j] == y && sorted[k + i] == x;
    }
  }

  // ---------------------------------------------------------------------
  // The dashboard object

  /** A table row: the record and the buttons it offers. */
  datatype Row = Row(account: Account, actions: RowActions)

  /** What a guarded wrapper did. */
  datatype Outcome = Refused | Cancelled | Done

  /** What `addNewUser` did. */
  datatype AddOutcome = FieldsMissing | Rejected(error: RegisterError) | Added(promoted: bool)

  class AdminDashboard {
    var userStatus: string
    var userRole: string
    var dateRange: string
    const auth: BackupAuthStore

    constructor (store: BackupAuthStore)
      ensures auth == store
      ensures userStatus == FILTER_ALL && userRole == FILTER_ALL && dateRange == "7d"
    {
      auth := store;
      userStatus := FILTER_ALL;
      userRole := FILTER_ALL;
      dateRange := "7d";
    }

    method SetStatusFilter(value: string)
      modifies this`userStatus
      ensures userStatus == value
    {
      userStatus := value;
    }

    method SetRoleFilter(value: string)
      modifies this`userRole
      ensures userRole == value
    {
      userRole := value;
    }

    method SetDateRange(value: string)
      modifies this`dateRange
      ensures dateRange == value
    {
      dateRange := value;
    }

    /** The statistics panel over the store's current records, listed in
        some order (which the result does not depend on). */
    method CalculateSystemStats() returns (s: SystemStats)
      ensures exists all :: Enumerates(all, auth.users) && s == ComputeStats(all, auth.adminUsers)
      ensures s.totalUsers == |auth.users| && s.admins == |auth.adminUsers|
      ensures auth.Consistent() ==> s.admins <= s.totalUsers
    {
      var all := auth.GetAllUsers();
      s := ComputeStats(all, auth.adminUsers);
      if auth.Consistent() {
        var ks :| EnumeratesBy(ks, all, auth.users);
        AdminSliceMatchesAdminSet(auth.users, auth.adminUsers, ks, all);
      }
    }

    /** The user table: the store's records, listed in some order, that pass
        the current filters, each with the buttons it offers. */
    method LoadUsersTable() returns (rows: seq<Row>)
      ensures exists all :: Enumerates(all, auth.users) && rows == TableRows(all, userStatus, userRole, auth.adminUsers)
      ensures |rows| <= |auth.users|
      ensures forall i :: 0 <= i < |rows| ==>
                && rows[i].account in auth.users.Values
                && Shown(rows[i].account, userStatus, userRole)
                && rows[i].actions == ActionsFor(rows[i].account, auth.adminUsers)
      ensures auth.Consistent() ==> forall i :: 0 <= i < |rows| ==>
                rows[i].account.username in auth.users && auth.users[rows[i].account.username] == rows[i].account
    {
      var all := auth.GetAllUsers();
      rows := TableRows(all, userStatus, userRole, auth.adminUsers);
      TableRowsStored(all, auth.users, userStatus, userRole, auth.adminUsers);
    }

    /** Refuses the bootstrap account before touching the store; otherwise
        deletes when the operator confirms. The session is left alone, so
        deleting the logged-in account keeps it logged in. */
    method DeleteUser(username: string, confirmed: bool) returns (outcome: Outcome)
      modifies auth`users, auth`adminUsers, auth`usersSlot, auth`adminsSlot
      ensures outcome == Refused <==> username == BOOTSTRAP_ADMIN
      ensures outcome == Done <==> username != BOOTSTRAP_ADMIN && confirmed
      ensures outcome != Done ==> unchanged(auth)
      ensures outcome == Done && username in old(auth.users) ==>
                && auth.users == old(auth.users) - {username} && auth.adminUsers == old(auth.adminUsers) - {username}
                && auth.usersSlot == Holds(auth.users) && auth.adminsSlot == Holds(auth.adminUsers)
      ensures outcome == Done && username !in old(auth.users) ==>
                && auth.users == old(auth.users) && auth.adminUsers == old(auth.adminUsers)
                && auth.usersSlot == old(auth.usersSlot) && auth.adminsSlot == old(auth.adminsSlot)
      ensures auth.currentUser == old(auth.currentUser) && auth.sessions == old(auth.sessions)
      ensures auth.sessionSlot == old(auth.sessionSlot) && auth.sessionIdSlot == old(auth.sessionIdSlot)
      ensures old(auth.Consistent()) ==> auth.Consistent()
    {
      if username == BOOTSTRAP_ADMIN {
        return Refused;
      }
      if confirmed {
        var _ := auth.DeleteUser(username);
        return Done;
      }
      return Cancelled;
    }

    method PromoteUser(username: string)
      modifies auth`users, auth`adminUsers, auth`usersSlot, auth`adminsSlot
      ensures username in old(auth.users) ==>
                && auth.users == old(auth.users)[username := old(auth.users)[username].(role := ROLE_ADMIN)]
                && auth.adminUsers == old(auth.adminUsers) + {username}
                && auth.usersSlot == Holds(auth.users) && auth.adminsSlot == Holds(auth.adminUsers)
      ensures username !in old(auth.users) ==>
                && auth.users == old(auth.users) && auth.adminUsers == old(auth.adminUsers)
                && auth.usersSlot == old(auth.usersSlot) && auth.adminsSlot == old(auth.adminsSlot)
      ensures auth.currentUser == old(auth.currentUser) && auth.sessions == old(auth.sessions)
      ensures auth.sessionSlot == old(auth.sessionSlot) && auth.sessionIdSlot == old(auth.sessionIdSlot)
      ensures old(auth.Consistent()) ==> auth.Consistent()
    {
      var _ := auth.PromoteToAdmin(username);
    }

    /** Refuses the bootstrap account before touching the store. */
    method DemoteUser(username: string) returns (outcome: Outcome)
      requires username == BOOTSTRAP_ADMIN || username in auth.users
      modifies auth`users, auth`adminUsers, auth`usersSlot, auth`adminsSlot
      ensures outcome == Refused <==> username == BOOTSTRAP_ADMIN
      ensures outcome != Cancelled
      ensures outcome == Refused ==> unchanged(auth)
      ensures outcome == Done ==>
                && auth.users == old(auth.users)[username := old(auth.users)[username].(role := ROLE_USER)]
                && auth.adminUsers == old(auth.adminUsers) - {username}
                && auth.usersSlot == Holds(auth.users) && auth.adminsSlot == Holds(auth.adminUsers)
      ensures auth.currentUser == old(auth.currentUser) && auth.sessions == old(auth.sessions)
      ensures auth.sessionSlot == old(auth.sessionSlot) && auth.sessionIdSlot == old(auth.sessionIdSlot)
      ensures old(auth.Consistent()) ==> auth.Consistent()
    {
      if username == BOOTSTRAP_ADMIN {
        return Refused;
      }
      var _ := auth.DemoteFromAdmin(username);
      return Done;
    }

    /** Refuses the bootstrap account before touching the store. */
    method DeactivateUser(username: string) returns (outcome: Outcome)
      modifies auth`users, auth`usersSlot
      ensures outcome == Refused <==> username == BOOTSTRAP_ADMIN
      ensures outcome != Cancelled
      ensures outcome == Refused ==> unchanged(auth)
      ensures outcome == Done && username in old(auth.users) ==>
                && auth.users == old(auth.users)[username := old(auth.users)[username].(status := STATUS_INACTIVE)]
                && auth.usersSlot == Holds(auth.users)
      ensures outcome == Done && username !in old(auth.users) ==>
                auth.users == old(auth.users) && auth.usersSlot == old(auth.usersSlot)
      ensures auth.adminUsers == old(auth.adminUsers) && auth.adminsSlot == old(auth.adminsSlot)
      ensures auth.currentUser == old(auth.currentUser) && auth.sessions == old(auth.sessions)
      ensures auth.sessionSlot == old(auth.sessionSlot) && auth.sessionIdSlot == old(auth.sessionIdSlot)
      ensures old(auth.Consistent()) ==> auth.Consistent()
    {
      if username == BOOTSTRAP_ADMIN {
        return Refused;
      }
      var _ := auth.DeactivateUser(username);
      return Done;
    }

    method ActivateUser(username: string)
      modifies auth`users, auth`usersSlot
      ensures username in old(auth.users) ==>
                && auth.users == old(auth.users)[username := old(auth.users)[username].(status := STATUS_ACTIVE)]
                && auth.usersSlot == Holds(auth.users)
      ensures username !in old(auth.users) ==> auth.users == old(auth.users) && auth.usersSlot == old(auth.usersSlot)
      ensures auth.adminUsers == old(auth.adminUsers) && auth.adminsSlot == old(auth.adminsSlot)
      ensures auth.currentUser == old(auth.currentUser) && auth.sessions == old(auth.sessions)
      ensures auth.sessionSlot == old(auth.sessionSlot) && auth.sessionIdSlot == old(auth.sessionIdSlot)
      ensures old(auth.Consistent()) ==> auth.Consistent()
    {
      var _ := auth.ActivateUser(username);
    }

    /** The edit form resubmits full name, email and status; the current
        session view is not refreshed. */
    method SaveUserEdit(username: string, fullname: string, email: string, status: string)
      modifies auth`users, auth`usersSlot
      ensures username in old(auth.users) ==>
                && auth.users == old(auth.users)[username := old(auth.users)[username].(fullname := fullname, email := email, status := status)]
                && auth.usersSlot == Holds(auth.users)
      ensures username !in old(auth.users) ==> auth.users == old(auth.users) && auth.usersSlot == old(auth.usersSlot)
      ensures auth.adminUsers == old(auth.adminUsers) && auth.adminsSlot == old(auth.adminsSlot)
      ensures auth.currentUser == old(auth.currentUser) && auth.sessions == old(auth.sessions)
      ensures auth.sessionSlot == old(auth.sessionSlot) && auth.sessionIdSlot == old(auth.sessionIdSlot)
    {
      var _ := auth.UpdateUser(username, NO_UPDATE.(email := Some(email), fullname := Some(fullname), status := Some(status)));
    }

    /** Registers with the password as its own confirmation, then promotes
        the new account when the admin role was chosen. */
    method AddNewUser(username: string, email: string, fullname: string, password: string,
                      role: string, now: int) returns (outcome: AddOutcome)
      modifies auth`users, auth`adminUsers, auth`usersSlot, auth`adminsSlot
      ensures outcome == FieldsMissing <==> |username| == 0 || |email| == 0 || |fullname| == 0 || |password| == 0
      ensures outcome.Rejected? ==> outcome.error != MissingField && outcome.error != PasswordMismatch
      ensures outcome.Rejected? ==> Some(outcome.error) == RegisterCheck(old(auth.users), username, email, password, password, fullname)
      ensures outcome.Added? <==> RegisterCheck(old(auth.users), username, email, password, password, fullname).None?
      ensures !outcome.Added? ==> unchanged(auth)
      ensures outcome.Added? ==>
                && username !in old(auth.users)
                && outcome.promoted == (role == ROLE_ADMIN)
                && auth.users == old(auth.users)[username := NewAccount(username, email, PasswordHash.Digest10(password), fullname, now)
                                                              .(role := if role == ROLE_ADMIN then ROLE_ADMIN else ROLE_USER)]
                && auth.adminUsers == (if role == ROLE_ADMIN then old(auth.adminUsers) + {username} else old(auth.adminUsers))
                && auth.usersSlot == Holds(auth.users)
                && auth.adminsSlot == (if role == ROLE_ADMIN then Holds(auth.adminUsers) else old(auth.adminsSlot))
      ensures auth.currentUser == old(auth.currentUser) && auth.sessions == old(auth.sessions)
      ensures auth.sessionSlot == old(auth.sessionSlot) && auth.sessionIdSlot == old(auth.sessionIdSlot)
      ensures old(auth.Consistent()) ==> auth.Consistent()
    {
      if |username| == 0 || |email| == 0 || |fullname| == 0 || |password| == 0 {
        return FieldsMissing;
      }
      var err := auth.Register(username, email, password, password, fullname, now);
      if err.Some? {
        return Rejected(err.value);
      }
      if role == ROLE_ADMIN {
        var _ := auth.PromoteToAdmin(username);
        return Added(true);
      }
      return Added(false);
    }
  }

  /** The rows of the user table for a list of records: one per record
      passing the filters, in order, each with the buttons it offers. */
  function TableRows(all: seq<Account>, status: string, role: string, adminUsers: set<string>): (rows: seq<Row>)
    ensures |rows| == |Matching(all, status, role)| <= |all|
    ensures forall i :: 0 <= i < |rows| ==>
              rows[i].account == Matching(all, status, role)[i]
              && rows[i].actions == ActionsFor(rows[i].account, adminUsers)
    ensures forall i :: 0 <= i < |rows| ==> rows[i].account in all && Shown(rows[i].account, status, role)
  {
    var shown := FilterUsers(all, status, role);
    MatchingLength(all, status, role);
    MatchingRowsMembers(all, status, role);
    seq(|shown|, j requires 0 <= j < |shown| => Row(shown[j], ActionsFor(shown[j], adminUsers)))
  }

  lemma MatchingRowsMembers(all: seq<Account>, status: string, role: string)
    ensures forall x :: x in Matching(all, status, role) ==> x in all && Shown(x, status, role)
  {
    forall x | x in Matching(all, status, role) ensures x in all && Shown(x, status, role) {
      MatchingMembership(all, status, role, x);
    }
  }

  lemma TableRowsStored(all: seq<Account>, users: map<string, Account>, status: string, role: string, adminUsers: set<string>)
    requires Enumerates(all, users)
    ensures forall r :: r in TableRows(all, status, role, adminUsers) ==> r.account in users.Values
    ensures KeysMatch(users) ==> forall r :: r in TableRows(all, status, role, adminUsers) ==>
              r.account.username in users && users[r.account.username] == r.account
  {
    var rows := TableRows(all, status, role, adminUsers);
    forall r | r in rows
      ensures r.account in users.Values
      ensures KeysMatch(users) ==> r.account.username in users && users[r.account.username] == r.account
    {
      EnumeratedRecord(all, users, r.account);
    }
  }

  /** Every listed record is a stored record, stored under its own name when
      the collection is consistent. */
  lemma EnumeratedRecord(all: seq<Account>, users: map<string, Account>, x: Account)
    requires Enumerates(all, users) && x in all
    ensures x in users.Values
    ensures KeysMatch(users) ==> x.username in users && users[x.username] == x
  {
    var ks :| EnumeratesBy(ks, all, users);
    var k :| 0 <= k < |all| && all[k] == x;
    assert ks[k] in users && users[ks[k]] == x;
  }

  lemma {:induction false} MatchingLength(all: seq<Account>, status: string, role: string)
    ensures |Matching(all, status, role)| <= |all|
  {
    if all != [] {
      MatchingLength(all[1..], status, role);
    }
  }
}
