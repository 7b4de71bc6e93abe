/** The permission catalog, a user's resolved permission set, and the validation of role permissions. */
module Permissions {
  import opened Sequences
  import opened Text
  import opened Wrappers

  /** Grants every permission; only the admin role may hold it. */
  const ALL := "*"

  /** Every assignable permission, in the order clients get them. */
  const CATALOG: seq<string> := [
    "users:read", "users:manage", "roles:read", "roles:manage", "system_events:read", "projects:create"]

  method IsAssignable(p: string) returns (assignable: bool)
    ensures assignable <==> p in CATALOG
  {
    for i := 0 to |CATALOG|
      invariant p !in CATALOG[..i]
    {
      if CATALOG[i] == p {
        return true;
      }
      assert CATALOG[..i + 1] == CATALOG[..i] + [CATALOG[i]];
    }
    assert CATALOG[..|CATALOG|] == CATALOG;
    return false;
  }

  datatype Set = Set(perms: set<string>) {
    predicate Has(p: string) {
      ALL in perms || p in perms
    }

    /** The granted permissions in catalog order, the wildcard first. */
    method List() returns (out: seq<string>)
      ensures out == Granted(perms, [ALL] + CATALOG)
    {
      out := [];
      if ALL in perms {
        out := out + [ALL];
      }
      for i := 0 to |CATALOG|
        invariant out == Granted(perms, [ALL] + CATALOG[..i])
      {
        var before := [ALL] + CATALOG[..i];
        assert [ALL] + CATALOG[..i + 1] == before + [CATALOG[i]];
        assert (before + [CATALOG[i]])[..|before|] == before;
        if CATALOG[i] in perms {
          out := out + [CATALOG[i]];
        }
      }
      assert CATALOG[..|CATALOG|] == CATALOG;
    }
  }

  method NewSet(raw: seq<string>) returns (s: Set)
    ensures s.perms == Members(raw)
  {
    var perms := {};
    for i := 0 to |raw|
      invariant perms == Members(raw[..i])
    {
      assert raw[..i + 1] == raw[..i] + [raw[i]];
      perms := perms + {raw[i]};
    }
    assert raw[..|raw|] == raw;
    s := Set(perms);
  }

  /** The elements of a list that are in the set, in the list's order. */
  function Granted(perms: set<string>, all: seq<string>): seq<string> {
    if all == [] then []
    else Granted(perms, all[..|all| - 1]) + if all[|all| - 1] in perms then [all[|all| - 1]] else []
  }

  lemma {:induction false} GrantedMembers(perms: set<string>, all: seq<string>)
    ensures Members(Granted(perms, all)) == perms * Members(all)
  {
    if all != [] {
      var n := |all| - 1;
      GrantedMembers(perms, all[..n]);
      assert all == all[..n] + [all[n]];
      assert Members(all) == Members(all[..n]) + {all[n]};
      assert Members(Granted(perms, all)) ==
        Members(Granted(perms, all[..n])) + if all[n] in perms then {all[n]} else {};
    }
  }

  /** What is granted is listed once and in the order of the list. */
  lemma {:induction false} GrantedInOrder(perms: set<string>, all: seq<string>, i: nat, j: nat)
    requires Distinct(all) && i < j < |Granted(perms, all)|
    ensures exists a, b :: 0 <= a < b < |all| && all[a] == Granted(perms, all)[i] && all[b] == Granted(perms, all)[j]
  {
    var n := |all| - 1;
    var front := Granted(perms, all[..n]);
    if j < |front| {
      GrantedInOrder(perms, all[..n], i, j);
      var a, b :| 0 <= a < b < n && all[..n][a] == front[i] && all[..n][b] == front[j];
      assert all[a] == front[i] && all[b] == front[j];
    } else {
      GrantedMembers(perms, all[..n]);
      assert front[i] in Members(front);
      var a :| 0 <= a < n && all[a] == front[i];
    }
  }

  /** A client that rebuilds a set from the list it was sent decides every catalog permission alike. */
  lemma ListRoundTrip(s: Set, p: string)
    requires p in CATALOG || p == ALL
    ensures Set(Members(Granted(s.perms, [ALL] + CATALOG))).Has(p) == s.Has(p)
  {
    GrantedMembers(s.perms, [ALL] + CATALOG);
  }

  /** Has answers yes to catalog permissions only, unless the wildcard is held, exactly when the set
      was built from catalog permissions only: unknown strings are not filtered out. */
  lemma HasStaysInCatalogIff(s: Set)
    ensures (forall p :: s.Has(p) ==> p in CATALOG || ALL in s.perms) <==> ALL in s.perms || s.perms <= Members(CATALOG)
  {
    if p :| p in s.perms && p !in CATALOG && ALL !in s.perms {
      assert s.Has(p);
    }
  }

  function Trimmed(raw: seq<string>): (trimmed: seq<string>)
    ensures |trimmed| == |raw| && forall i :: 0 <= i < |raw| ==> trimmed[i] == TrimSpace(raw[i])
  {
    if raw == [] then [] else Trimmed(raw[..|raw| - 1]) + [TrimSpace(raw[|raw| - 1])]
  }

  predicate AllAssignable(perms: seq<string>) {
    forall i :: 0 <= i < |perms| ==> perms[i] in CATALOG
  }

  lemma AssignableStep(perms: seq<string>, i: nat)
    requires i < |perms|
    ensures AllAssignable(perms[..i + 1]) <==> AllAssignable(perms[..i]) && perms[i] in CATALOG
    ensures AllAssignable(perms) ==> perms[i] in CATALOG
  {
  }

  /** The permissions a role request asks for, if all of them may be assigned. */
  function Normalized(raw: seq<string>): Option<seq<string>> {
    if AllAssignable(Trimmed(raw)) then Some(Dedup(Trimmed(raw))) else None
  }

  method NormalizePermissions(raw: seq<string>) returns (r: Option<seq<string>>)
    ensures r == Normalized(raw)
  {
    ghost var trimmed := Trimmed(raw);
    var seen: set<string> := {};
    var out := [];
    for i := 0 to |raw|
      invariant AllAssignable(trimmed[..i])
      invariant out == Dedup(trimmed[..i]) && seen == Members(out)
    {
      var p := TrimSpace(raw[i]);
      var assignable := IsAssignable(p);
      AssignableStep(trimmed, i);
      if !assignable {
        return None;
      }
      DedupStep(trimmed, i);
      MembersStep(out, p);
      assert p in seen <==> p in out;
      if p !in seen {
        seen := seen + {p};
        out := out + [p];
      }
    }
    assert trimmed[..|raw|] == trimmed;
    return Some(out);
  }
}
