/** The Nginx Proxy Manager screen: the `proxy_host` payload built from the create form, and
    the table of listed proxy hosts. */
module NginxScreen {
  import opened Wrappers
  import opened Strings
  import opened Tables
  import Seqs

  /** The seventeen fields of the create form; `NUMBER` fields are integers. */
  datatype ProxyHostForm = ProxyHostForm(
    domainNames: string, forwardHost: string, forwardPort: int,
    accessListId: int, certificateId: int,
    sslForced: int, cachingEnabled: int, blockExploits: int,
    advancedConfig: string, allowWebsocketUpgrade: int, http2Support: int,
    forwardScheme: string, enabled: int, hstsEnabled: int, hstsSubdomains: int,
    useDefaultLocation: int, ipv6: int)

  /** The JSON body posted to `create-proxy-host`; `meta` is a JSON object and `locations`
      a JSON list, both always empty. */
  datatype ProxyHost = ProxyHost(
    domainNames: seq<string>, forwardHost: string, forwardPort: int,
    accessListId: Option<int>, certificateId: Option<int>,
    sslForced: bool, cachingEnabled: bool, blockExploits: bool,
    advancedConfig: string, allowWebsocketUpgrade: bool, http2Support: bool,
    forwardScheme: string, enabled: bool, hstsEnabled: bool, hstsSubdomains: bool,
    meta: map<string, string>, locations: seq<string>)

  /** The comma-separated pieces of the entered text, each stripped of edge whitespace
      (`pywebio_nginx.py:33`). */
  function DomainList(s: string): seq<string> {
    Seqs.Map(Split(s, ","), Strip)
  }

  /** `x if x != 0 else None`. */
  function ZeroAsNone(x: int): Option<int> {
    if x != 0 then Some(x) else None
  }

  /** Python's `bool` of an integer. */
  function Truthy(x: int): bool {
    x != 0
  }

  function Payload(f: ProxyHostForm): ProxyHost {
    ProxyHost(
      DomainList(f.domainNames), f.forwardHost, f.forwardPort,
      ZeroAsNone(f.accessListId), ZeroAsNone(f.certificateId),
      Truthy(f.sslForced), Truthy(f.cachingEnabled), Truthy(f.blockExploits),
      f.advancedConfig, Truthy(f.allowWebsocketUpgrade), Truthy(f.http2Support),
      f.forwardScheme, Truthy(f.enabled), Truthy(f.hstsEnabled), Truthy(f.hstsSubdomains),
      map[], [])
  }

  /** The domain list has one entry per comma-separated segment, each stripped of surrounding
      whitespace, with no whitespace left at its edges. */
  lemma DomainListSpec(s: string)
    ensures |DomainList(s)| == CountChar(s, ',') + 1
    ensures forall i :: 0 <= i < |DomainList(s)| ==>
      DomainList(s)[i] == Strip(Split(s, ",")[i]) &&
      (DomainList(s)[i] == [] || (!IsSpace(DomainList(s)[i][0]) && !IsSpace(DomainList(s)[i][|DomainList(s)[i]| - 1])))
    ensures forall i :: 0 <= i < |DomainList(s)| ==> !Contains(DomainList(s)[i], ",")
  {
    SplitCharCount(s, ',');
    SplitPiecesFree(s, ",");
    forall i | 0 <= i < |DomainList(s)| ensures !Contains(DomainList(s)[i], ",") {
      var piece := Split(s, ",")[i];
      var d := DomainList(s)[i];
      assert d == Strip(piece);
      StripSpec(piece);
      SubstringFree(piece, d, ",");
    }
  }

  /** A substring of a string that does not hold `sub` does not hold it either. */
  lemma SubstringFree(s: string, t: string, sub: string)
    requires !Contains(s, sub)
    requires exists i, j :: 0 <= i <= j <= |s| && t == s[i..j]
    ensures !Contains(t, sub)
  {
    var i, j :| 0 <= i <= j <= |s| && t == s[i..j];
    forall k | 0 <= k <= |t| ensures !OccursAt(t, sub, k) {
      if OccursAt(t, sub, k) {
        forall m | 0 <= m < |sub| ensures s[i + k + m] == sub[m] {
          assert t[k..k + |sub|][m] == t[k + m] == s[i + k + m];
        }
        assert s[i + k..i + k + |sub|] == sub;
        assert OccursAt(s, sub, i + k);
      }
    }
  }

  /** The payload field by field: ids map 0 to `None` and keep every other value, every
      numeric flag becomes true exactly when it is nonzero, the texts and the port are copied,
      `meta` and `locations` are empty. */
  lemma PayloadSpec(f: ProxyHostForm)
    ensures var p := Payload(f);
      && p.domainNames == DomainList(f.domainNames)
      && p.forwardHost == f.forwardHost && p.forwardPort == f.forwardPort
      && p.advancedConfig == f.advancedConfig && p.forwardScheme == f.forwardScheme
      && (p.accessListId.None? <==> f.accessListId == 0)
      && (p.accessListId.Some? ==> p.accessListId.value == f.accessListId)
      && (p.certificateId.None? <==> f.certificateId == 0)
      && (p.certificateId.Some? ==> p.certificateId.value == f.certificateId)
      && (p.sslForced <==> f.sslForced != 0) && (p.cachingEnabled <==> f.cachingEnabled != 0)
      && (p.blockExploits <==> f.blockExploits != 0)
      && (p.allowWebsocketUpgrade <==> f.allowWebsocketUpgrade != 0)
      && (p.http2Support <==> f.http2Support != 0) && (p.enabled <==> f.enabled != 0)
      && (p.hstsEnabled <==> f.hstsEnabled != 0) && (p.hstsSubdomains <==> f.hstsSubdomains != 0)
      && |p.meta| == 0 && p.locations == []
  {
  }

  /** The collected `use_default_location` and `ipv6` never reach the payload. */
  lemma PayloadIgnoresLocationAndIpv6(f: ProxyHostForm, useDefaultLocation: int, ipv6: int)
    ensures Payload(f.(useDefaultLocation := useDefaultLocation, ipv6 := ipv6)) == Payload(f)
  {
  }

  // ================================================================ the host list

  /** One entry of `list-proxy-hosts`, with the keys the table reads. */
  datatype Host = Host(id: int, domainNames: seq<string>, forwardHost: string, forwardPort: int)

  const HostHeader: Row := Header(["ID", "Domain Names", "Forward Host", "Forward Port"])

  /** A host's row (`pywebio_nginx.py:75`): its id, its domains joined by a comma and a space, its
      forward host and its forward port. */
  function HostRow(h: Host): Row {
    [Number(h.id), Text(Join(h.domainNames, ", ")), Text(h.forwardHost), Number(h.forwardPort)]
  }

  /** The `for host in hosts` loop: the header, then one row per host in list order. */
  method HostTable(hosts: seq<Host>) returns (t: Table)
    ensures |t| == |hosts| + 1 && t[0] == HostHeader
    ensures forall i :: 0 <= i < |hosts| ==> t[i + 1] == HostRow(hosts[i])
  {
    t := [HostHeader];
    for i := 0 to |hosts|
      invariant |t| == i + 1 && t[0] == HostHeader
      invariant forall k :: 0 <= k < i ==> t[k + 1] == HostRow(hosts[k])
    {
      t := t + [HostRow(hosts[i])];
    }
  }

  /** The `List Proxy Hosts` branch. */
  method ListHosts(fetched: Option<seq<Host>>) returns (screen: Screen)
    ensures fetched.None? ==> screen == ShowError("Failed to retrieve proxy hosts.")
    ensures fetched.Some? ==> (
      && screen.ShowTable?
      && |screen.table| == |fetched.value| + 1 && screen.table[0] == HostHeader
      && forall i :: 0 <= i < |fetched.value| ==> screen.table[i + 1] == HostRow(fetched.value[i]))
  {
    if fetched.None? {
      return ShowError("Failed to retrieve proxy hosts.");
    }
    var t := HostTable(fetched.value);
    return ShowTable(t);
  }

  function Spaced(d: string): string {
    " " + d
  }

  /** The pieces of a `", "`-joined list as a plain `","` split sees them. */
  function CommaPieces(ds: seq<string>): seq<string>
    requires |ds| >= 1
  {
    [ds[0]] + Seqs.Map(ds[1..], Spaced)
  }

  /** Joining one host's domains with `", "` is joining them, all but the first behind a
      space, with `","`. */
  lemma {:induction false} JoinCommaSpace(ds: seq<string>)
    requires |ds| >= 1
    ensures Join(ds, ", ") == Join(CommaPieces(ds), ",")
  {
    if |ds| > 1 {
      JoinCommaSpace(ds[1..]);
      var tail := Seqs.Map(ds[2..], Spaced);
      assert ds[1..][1..] == ds[2..];
      assert Seqs.Map(ds[1..], Spaced) == [" " + ds[1]] + tail;
      assert ([ds[0]] + ([" " + ds[1]] + tail))[1..] == [" " + ds[1]] + tail;
      assert ([ds[1]] + tail)[1..] == tail;
      assert ([" " + ds[1]] + tail)[1..] == tail;
    }
  }

  /** The pieces `JoinCommaSpace` glues with `","` hold no comma. */
  lemma SpacedPiecesFree(ds: seq<string>)
    requires |ds| >= 1
    requires forall i, k :: 0 <= i < |ds| && 0 <= k < |ds[i]| ==> ds[i][k] != ','
    ensures var parts := CommaPieces(ds);
      forall i :: 0 <= i < |parts| ==> !Contains(parts[i], [','])
  {
    var parts := CommaPieces(ds);
    forall i | 0 <= i < |parts| ensures !Contains(parts[i], [',']) {
      if i == 0 {
        NotContainsByFirstChar(ds[0], [',']);
      } else {
        assert parts[i] == " " + ds[i];
        NotContainsByFirstChar(" " + ds[i], [',']);
      }
    }
  }

  /** Reading a listed row's domain text back the way the create form reads its input recovers
      the host's domains, when there is at least one, none holds a comma and none has
      whitespace at its edges. */
  lemma DomainsRoundTrip(ds: seq<string>)
    requires |ds| >= 1
    requires forall i, k :: 0 <= i < |ds| && 0 <= k < |ds[i]| ==> ds[i][k] != ','
    requires forall i :: 0 <= i < |ds| ==> ds[i] == [] || (!IsSpace(ds[i][0]) && !IsSpace(ds[i][|ds[i]| - 1]))
    ensures DomainList(Join(ds, ", ")) == ds
  {
    JoinCommaSpace(ds);
    SpacedPiecesFree(ds);
    SplitJoin(CommaPieces(ds), ',');
    assert "," == [','];
    StripCommaPieces(ds);
  }

  /** Stripping each piece undoes the space that `", "` put in front of it. */
  lemma StripCommaPieces(ds: seq<string>)
    requires |ds| >= 1
    requires forall i :: 0 <= i < |ds| ==> ds[i] == [] || (!IsSpace(ds[i][0]) && !IsSpace(ds[i][|ds[i]| - 1]))
    ensures Seqs.Map(CommaPieces(ds), Strip) == ds
  {
    var r := Seqs.Map(CommaPieces(ds), Strip);
    forall i | 0 <= i < |ds| ensures r[i] == ds[i] {
      StripCommaPiece(ds, i);
    }
  }

  lemma StripCommaPiece(ds: seq<string>, i: int)
    requires 0 <= i < |ds|
    requires ds[i] == [] || (!IsSpace(ds[i][0]) && !IsSpace(ds[i][|ds[i]| - 1]))
    ensures Strip(CommaPieces(ds)[i]) == ds[i]
  {
    StripTrimmed(ds[i]);
    if i > 0 {
      assert CommaPieces(ds)[i] == [' '] + ds[i];
      StripLeadingSpace(' ', ds[i]);
    }
  }
}
