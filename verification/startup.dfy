/**
 * The pure decisions the meter service makes once, while it is being
 * constructed: which bus identity the configured role selects, how the
 * configured L1 position reorders the meter's three channels, and which
 * status URL is polled.
 */
module Startup {
  import opened Results

  /**
   * Why construction of the service is abandoned. The program itself raises
   * for a bad access type and logs then exits for a bad role (its message
   * leaves the role out); the model records the offending value in both cases.
   */
  datatype ConfigError =
    | UnsupportedAccessType(accessType: string)
    | UnsupportedRole(role: string)

  /** The bus service name and product id a role publishes under. */
  datatype Identity = Identity(serviceName: string, productId: int)

  const ServicePrefix: string := "com.victronenergy."
  const AllowedRoles: seq<string> := ["pvinverter", "grid"]
  const PvInverterProductId: int := 0xA144
  const GridProductId: int := 45069

  /** Only role names in the allowed list yield an identity; every other name aborts construction. */
  function ResolveRole(role: string): (r: Result<Identity, ConfigError>)
    ensures r.Ok? <==> role == "pvinverter" || role == "grid"
    ensures r.Err? ==> r.error == UnsupportedRole(role)
    ensures r.Ok? ==> |r.value.serviceName| == |ServicePrefix| + |role|
    ensures r.Ok? ==> r.value.serviceName[..|ServicePrefix|] == ServicePrefix
    ensures r.Ok? ==> r.value.serviceName[|ServicePrefix|..] == role
    ensures role == "pvinverter" ==> r.Ok? && r.value.productId == 41284
    ensures role == "grid" ==> r.Ok? && r.value.productId == 45069
  {
    if role in AllowedRoles then
      var productId := if role == "pvinverter" then PvInverterProductId else GridProductId;
      Ok(Identity(ServicePrefix + role, productId))
    else
      Err(UnsupportedRole(role))
  }

  // ---------------------------------------------------------------------
  // Phase index
  // ---------------------------------------------------------------------

  /** `pi` sends the three logical lines L1..L3 to three distinct meter channels 0..2. */
  predicate IsPhasePermutation(pi: seq<nat>) {
    && |pi| == 3
    && (forall k :: 0 <= k < 3 ==> pi[k] < 3)
    && (forall j, k :: 0 <= j < k < 3 ==> pi[j] != pi[k])
  }

  /** True when the optional L1Position setting is one the model accepts. */
  predicate ValidL1Position(l1Position: Option<int>) {
    l1Position.Some? ==> 1 <= l1Position.value <= 3
  }

  /**
   * The channel read for each logical line. Without an L1Position key the
   * channels are taken in meter order; with position p, slot 0 and slot p-1
   * trade places (a transposition, not a rotation).
   */
  function PhaseIndex(l1Position: Option<int>): (pi: seq<nat>)
    requires ValidL1Position(l1Position)
    ensures IsPhasePermutation(pi)
    ensures l1Position.None? ==> pi == [0, 1, 2]
    ensures l1Position.Some? ==> pi[0] == l1Position.value - 1
    ensures l1Position.Some? ==> pi[l1Position.value - 1] == 0
    ensures l1Position.Some? ==>
      forall k :: 0 < k < 3 && k != l1Position.value - 1 ==> pi[k] == k
  {
    match l1Position
    case None => [0, 1, 2]
    case Some(p) => [0, 1, 2][0 := p - 1][p - 1 := 0]
  }

  /** Applying the phase index twice gives back every line: the swap is its own inverse. */
  lemma PhaseIndexIsInvolution(l1Position: Option<int>, k: nat)
    requires ValidL1Position(l1Position)
    requires k < 3
    ensures PhaseIndex(l1Position)[PhaseIndex(l1Position)[k]] == k
  {
    var pi := PhaseIndex(l1Position);
    if l1Position.Some? {
      var p := l1Position.value;
      if k == 0 {
        assert pi[k] == p - 1;
      } else if k == p - 1 {
        assert pi[k] == 0;
      } else {
        assert pi[k] == k;
      }
    }
  }

  /** The three settings that can be present, spelled out; position 3 is not the rotation [2, 0, 1]. */
  lemma PhaseIndexTable()
    ensures PhaseIndex(None) == [0, 1, 2]
    ensures PhaseIndex(Some(1)) == [0, 1, 2]
    ensures PhaseIndex(Some(2)) == [1, 0, 2]
    ensures PhaseIndex(Some(3)) == [2, 1, 0]
  {
  }

  // ---------------------------------------------------------------------
  // Status URL
  // ---------------------------------------------------------------------

  /** No ':' in `s` is directly followed by '@'. */
  predicate NoSep(s: string) {
    forall i :: 0 <= i < |s| - 1 ==> !(s[i] == ':' && s[i + 1] == '@')
  }

  /**
   * Deletes every ":@", scanning left to right and never re-examining the
   * text a deletion brings together, as Python's replace does.
   */
  function RemoveSep(s: string): (r: string)
    ensures |r| <= |s|
    ensures (|s| - |r|) % 2 == 0
    decreases |s|
  {
    if |s| < 2 then s
    else if s[0] == ':' && s[1] == '@' then RemoveSep(s[2..])
    else [s[0]] + RemoveSep(s[1..])
  }

  /** Text without ":@" passes through unchanged. */
  lemma {:induction false} RemoveSepKeepsClean(s: string)
    ensures NoSep(s) ==> RemoveSep(s) == s
    decreases |s|
  {
    if |s| >= 2 && NoSep(s) {
      assert !(s[0] == ':' && s[1] == '@');
      assert NoSep(s[1..]) by {
        forall i | 0 <= i < |s[1..]| - 1
          ensures !(s[1..][i] == ':' && s[1..][i + 1] == '@')
        {
          assert s[1..][i] == s[i + 1] && s[1..][i + 1] == s[i + 2];
        }
      }
      RemoveSepKeepsClean(s[1..]);
      assert RemoveSep(s) == [s[0]] + s[1..];
    }
  }

  /** Text on either side of a ":@" is cleaned independently: no deletion straddles it. */
  lemma {:induction false} RemoveSepAcrossSep(a: string, b: string)
    ensures RemoveSep(a + ":@" + b) == RemoveSep(a) + RemoveSep(b)
    decreases |a|
  {
    var s := a + ":@" + b;
    if |a| == 0 {
      assert s == ":@" + b;
      assert s[2..] == b;
      assert RemoveSep(s) == RemoveSep(b);
    } else if |a| == 1 {
      assert s[1] == ':';
      assert s[1..] == ":@" + b;
      assert RemoveSep(s) == [a[0]] + RemoveSep(":@" + b);
      assert (":@" + b)[2..] == b;
      assert RemoveSep(":@" + b) == RemoveSep(b);
      assert RemoveSep(a) == a == [a[0]];
    } else if a[0] == ':' && a[1] == '@' {
      assert s[0] == ':' && s[1] == '@';
      assert s[2..] == a[2..] + ":@" + b;
      assert RemoveSep(s) == RemoveSep(a[2..] + ":@" + b);
      RemoveSepAcrossSep(a[2..], b);
      assert RemoveSep(a) == RemoveSep(a[2..]);
    } else {
      assert s[0] == a[0] && s[1] == a[1];
      assert s[1..] == a[1..] + ":@" + b;
      assert RemoveSep(s) == [a[0]] + RemoveSep(a[1..] + ":@" + b);
      RemoveSepAcrossSep(a[1..], b);
      assert RemoveSep(a) == [a[0]] + RemoveSep(a[1..]);
    }
  }

  /** The URL before the ":@" clean-up: user, password and host in the basic-auth position. */
  function RawUrl(username: string, password: string, host: string): string {
    "http://" + username + ":" + password + "@" + host + "/status"
  }

  /**
   * The status URL for the configured access type: only "OnPremise" is
   * supported, and every ":@" is removed from the assembled URL.
   */
  function StatusUrl(accessType: string, username: string, password: string, host: string)
    : (r: Result<string, ConfigError>)
    ensures r.Ok? <==> accessType == "OnPremise"
    ensures r.Err? ==> r.error == UnsupportedAccessType(accessType)
    ensures r.Ok? ==> |r.value| <= |RawUrl(username, password, host)|
    ensures r.Ok? && NoSep(RawUrl(username, password, host)) ==>
      r.value == RawUrl(username, password, host)
    ensures r.Ok? ==> r.value == RemoveSep(RawUrl(username, password, host))
  {
    var raw := RawUrl(username, password, host);
    RemoveSepKeepsClean(raw);
    if accessType == "OnPremise" then Ok(RemoveSep(raw))
    else Err(UnsupportedAccessType(accessType))
  }

  /**
   * With a non-empty password that neither starts with '@' nor ends with ':',
   * and credentials and host that contain no ":@", the URL carries them
   * unchanged (a host may carry a port, as in host:8080).
   */
  lemma StatusUrlWithPassword(username: string, password: string, host: string)
    requires NoSep(username) && NoSep(password) && NoSep(host)
    requires password != ""
    requires password[0] != '@' && password[|password| - 1] != ':'
    ensures StatusUrl("OnPremise", username, password, host)
         == Ok("http://" + username + ":" + password + "@" + host + "/status")
  {
    CredentialedUrlHasNoSep(username, password, host);
    RemoveSepKeepsClean(RawUrl(username, password, host));
  }

  lemma CredentialedUrlHasNoSep(username: string, password: string, host: string)
    requires NoSep(username) && NoSep(password) && NoSep(host)
    requires password != ""
    requires password[0] != '@' && password[|password| - 1] != ':'
    ensures NoSep(RawUrl(username, password, host))
  {
    var s := RawUrl(username, password, host);
    var a := "http://" + username;
    var b := password + "@" + host + "/status";
    assert s == a + ":" + b;
    SchemeThenCleanHasNoSep(username);
    var n := |password|;
    assert forall i :: 0 <= i < n ==> b[i] == password[i];
    assert b[n] == '@';
    assert forall i :: n < i < n + 1 + |host| ==> b[i] == host[i - n - 1];
    assert b[n + 1 + |host|..] == "/status";
    assert NoSep(b) by {
      forall i | 0 <= i < |b| - 1 && b[i] == ':'
        ensures b[i + 1] != '@'
      {
        if i < n - 1 {
          assert b[i] == password[i] && b[i + 1] == password[i + 1];
        } else if i < n + 1 {
          // the last password character is no ':', and '@' is not one either
        } else if i < n + |host| {
          assert b[i] == host[i - n - 1] && b[i + 1] == host[i - n];
        } else {
          assert b[i + 1] == "/status"[i + 1 - (n + 1 + |host|)];
        }
      }
    }
    assert forall i :: 0 <= i < |a| ==> s[i] == a[i];
    assert s[|a|] == ':' && s[|a| + 1] == password[0];
    assert forall i :: |a| < i < |s| ==> s[i] == b[i - |a| - 1];
    assert NoSep(s) by {
      forall i | 0 <= i < |s| - 1 && s[i] == ':'
        ensures s[i + 1] != '@'
      {
        if i < |a| - 1 {
          assert s[i] == a[i] && s[i + 1] == a[i + 1];
        } else if i == |a| - 1 {
          assert s[i + 1] == ':';
        } else if i == |a| {
        } else {
          assert s[i] == b[i - |a| - 1] && s[i + 1] == b[i - |a|];
        }
      }
    }
  }

  /**
   * An empty password also deletes the separator after the user name, so
   * the user name is glued to the host.
   */
  lemma StatusUrlEmptyPassword(username: string, host: string)
    requires NoSep(username) && NoSep(host)
    ensures StatusUrl("OnPremise", username, "", host) == Ok("http://" + username + host + "/status")
  {
    var a := "http://" + username;
    var b := host + "/status";
    assert RawUrl(username, "", host) == a + ":@" + b;
    RemoveSepAcrossSep(a, b);
    SchemeThenCleanHasNoSep(username);
    CleanThenPathHasNoSep(host);
    RemoveSepKeepsClean(a);
    RemoveSepKeepsClean(b);
    assert a + b == "http://" + username + host + "/status";
  }

  lemma SchemeThenCleanHasNoSep(u: string)
    requires NoSep(u)
    ensures NoSep("http://" + u)
  {
    var a := "http://" + u;
    assert forall i :: 7 <= i < |a| ==> a[i] == u[i - 7];
    assert a[..7] == "http://";
    forall i | 0 <= i < |a| - 1 && a[i] == ':'
      ensures a[i + 1] != '@'
    {
      if i >= 7 {
        assert a[i] == u[i - 7] && a[i + 1] == u[i - 6];
      }
    }
  }

  lemma CleanThenPathHasNoSep(h: string)
    requires NoSep(h)
    ensures NoSep(h + "/status")
  {
    var b := h + "/status";
    assert forall i :: 0 <= i < |h| ==> b[i] == h[i];
    assert b[|h|..] == "/status";
    forall i | 0 <= i < |b| - 1 && b[i] == ':'
      ensures b[i + 1] != '@'
    {
      if i < |h| - 1 {
        assert b[i] == h[i] && b[i + 1] == h[i + 1];
      } else if i >= |h| {
        assert b[i] == "/status"[i - |h|];
      }
    }
  }

  /** Without credentials the URL collapses to http://host/status, a port in the host included. */
  lemma StatusUrlNoCredentials(host: string)
    requires NoSep(host)
    ensures StatusUrl("OnPremise", "", "", host) == Ok("http://" + host + "/status")
  {
    assert NoSep("") by {}
    StatusUrlEmptyPassword("", host);
    assert "http://" + "" + host + "/status" == "http://" + host + "/status";
  }

  // ---------------------------------------------------------------------
  // Construction
  // ---------------------------------------------------------------------

  /** The configuration keys the constructor consults. */
  datatype Config = Config(
    accessType: string,
    username: string,
    password: string,
    host: string,
    role: string,
    l1Position: Option<int>)

  /** What a successful construction fixes for the lifetime of the service. */
  datatype Settings = Settings(url: string, identity: Identity, phaseIndex: seq<nat>)

  /**
   * Construction as far as it is pure: the URL is built first, so an
   * unsupported access type is reported even when the role is also bad.
   */
  function Configure(c: Config): (r: Result<Settings, ConfigError>)
    requires ValidL1Position(c.l1Position)
    ensures r.Ok? <==> c.accessType == "OnPremise" && (c.role == "pvinverter" || c.role == "grid")
    ensures c.accessType != "OnPremise" ==> r == Err(UnsupportedAccessType(c.accessType))
    ensures c.accessType == "OnPremise" && r.Err? ==> r == Err(UnsupportedRole(c.role))
    ensures r.Ok? ==> IsPhasePermutation(r.value.phaseIndex)
    ensures r.Ok? ==> r.value.phaseIndex == PhaseIndex(c.l1Position)
    ensures r.Ok? ==> ResolveRole(c.role) == Ok(r.value.identity)
    ensures r.Ok? ==> StatusUrl(c.accessType, c.username, c.password, c.host) == Ok(r.value.url)
  {
    match StatusUrl(c.accessType, c.username, c.password, c.host)
    case Err(e) => Err(e)
    case Ok(url) =>
      match ResolveRole(c.role)
      case Err(e) => Err(e)
      case Ok(identity) => Ok(Settings(url, identity, PhaseIndex(c.l1Position)))
  }
}
