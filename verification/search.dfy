/** `get_ldap_info`: one paged search, reduced to the `attributes`
    dictionaries of the entries that carry one. */
module Search {
  import opened Wrappers
  import opened Directory

  /** Python truthiness of the `connection` argument: the empty-string
      default (or `False`) versus a connection object. */
  datatype Connection = Falsy | Live

  /** The entries' `attributes` dictionaries, in order, skipping entries
      that have none. */
  function AttributeMaps(raw: seq<RawEntry>): (attrs: seq<Attributes>)
    ensures |attrs| <= |raw|
    ensures (forall i :: 0 <= i < |raw| ==> raw[i].attributes.Some?) ==> |attrs| == |raw|
    ensures (forall i :: 0 <= i < |raw| ==> raw[i].attributes.None?) ==> attrs == []
    decreases |raw|
  {
    if raw == [] then []
    else
      var front := raw[..|raw| - 1];
      AttributeMaps(front) + match raw[|raw| - 1].attributes {
        case Some(a) => [a]
        case None => []
      }
  }

  /** Positions of the entries that carry an `attributes` dictionary. */
  function AttributeIndices(raw: seq<RawEntry>): (idx: seq<nat>)
    ensures forall k :: 0 <= k < |idx| ==> idx[k] < |raw|
    decreases |raw|
  {
    if raw == [] then []
    else AttributeIndices(raw[..|raw| - 1]) + if raw[|raw| - 1].attributes.Some? then [|raw| - 1] else []
  }

  /** The positions are strictly increasing and are exactly the entries
      that carry an `attributes` dictionary. */
  lemma {:induction false} AttributeIndicesExact(raw: seq<RawEntry>)
    ensures forall k, m :: 0 <= k < m < |AttributeIndices(raw)| ==> AttributeIndices(raw)[k] < AttributeIndices(raw)[m]
    ensures forall j :: 0 <= j < |raw| ==> (j in AttributeIndices(raw) <==> raw[j].attributes.Some?)
    decreases |raw|
  {
    if raw != [] {
      var front := raw[..|raw| - 1];
      AttributeIndicesExact(front);
      assert forall j :: 0 <= j < |front| ==> front[j] == raw[j];
    }
  }

  /** The kept dictionaries are exactly those of the entries that have one,
      in input order: the k-th kept dictionary belongs to the k-th such entry. */
  lemma {:induction false} AttributeMapsSelectsInOrder(raw: seq<RawEntry>)
    ensures |AttributeMaps(raw)| == |AttributeIndices(raw)|
    ensures forall k :: 0 <= k < |AttributeIndices(raw)| ==>
              raw[AttributeIndices(raw)[k]].attributes == Some(AttributeMaps(raw)[k])
    decreases |raw|
  {
    if raw != [] {
      var front := raw[..|raw| - 1];
      AttributeMapsSelectsInOrder(front);
      var idx, maps := AttributeIndices(front), AttributeMaps(front);
      var last := raw[|raw| - 1].attributes;
      var idx' := idx + if last.Some? then [|raw| - 1] else [];
      var maps' := maps + match last { case Some(a) => [a] case None => [] };
      assert AttributeIndices(raw) == idx';
      assert AttributeMaps(raw) == maps';
      forall k | 0 <= k < |idx'|
        ensures raw[idx'[k]].attributes == Some(maps'[k])
      {
        if k < |idx| {
          assert idx'[k] == idx[k] && maps'[k] == maps[k];
          assert raw[idx[k]] == front[idx[k]];
        }
      }
    }
  }

  /** Filtering distributes over concatenation, so a paged result can be
      filtered page by page. */
  lemma {:induction false} AttributeMapsAppend(a: seq<RawEntry>, b: seq<RawEntry>)
    ensures AttributeMaps(a + b) == AttributeMaps(a) + AttributeMaps(b)
    decreases |b|
  {
    if b == [] {
      assert a + b == a;
    } else {
      var b' := b[..|b| - 1];
      assert (a + b)[..|a + b| - 1] == a + b';
      AttributeMapsAppend(a, b');
    }
  }

  /** The loop of `get_ldap_info`: append each entry's `attributes`,
      skipping entries where the lookup raises `KeyError`. */
  method CollectAttributes(entryList: seq<RawEntry>) returns (result: seq<Attributes>)
    ensures result == AttributeMaps(entryList)
  {
    result := [];
    var i := 0;
    while i < |entryList|
      invariant 0 <= i <= |entryList|
      invariant result == AttributeMaps(entryList[..i])
    {
      assert entryList[..i + 1][..i] == entryList[..i];
      match entryList[i].attributes {
        case Some(a) => result := result + [a];
        case None =>
      }
      i := i + 1;
    }
    assert entryList[..i] == entryList;
  }

  /** `get_ldap_info`: a falsy connection gives the empty list without a
      search; otherwise the search's exception propagates (None) or its
      entries are reduced to their `attributes` dictionaries. */
  function GetLdapInfo(connection: Connection, search: SearchRequest -> SearchOutcome,
                       request: SearchRequest): (result: Option<seq<Attributes>>)
    ensures connection.Falsy? ==> result == Some([])
    ensures connection.Live? ==> (result.None? <==> search(request).SearchRaised?)
    ensures result.Some? ==> connection.Falsy? || |result.value| <= |search(request).entries|
  {
    match connection
    case Falsy => Some([])
    case Live =>
      match search(request)
      case SearchRaised => None
      case Entries(entryList) => Some(AttributeMaps(entryList))
  }

  /** With a falsy connection the search collaborator is never consulted:
      the result is the same whatever the search would have answered. */
  lemma FalsyConnectionSkipsSearch(s1: SearchRequest -> SearchOutcome, s2: SearchRequest -> SearchOutcome,
                                   r1: SearchRequest, r2: SearchRequest)
    ensures GetLdapInfo(Falsy, s1, r1) == GetLdapInfo(Falsy, s2, r2) == Some([])
  {
  }

  /** With a live connection, a successful search yields exactly the
      dictionaries of the entries that have one, in order. */
  lemma LiveSearchKeepsAttributes(search: SearchRequest -> SearchOutcome, request: SearchRequest)
    requires search(request).Entries?
    ensures var raw := search(request).entries;
            var result := GetLdapInfo(Live, search, request);
            && result.Some?
            && |result.value| == |AttributeIndices(raw)|
            && (forall k, m :: 0 <= k < m < |AttributeIndices(raw)| ==> AttributeIndices(raw)[k] < AttributeIndices(raw)[m])
            && (forall j :: 0 <= j < |raw| ==> (j in AttributeIndices(raw) <==> raw[j].attributes.Some?))
            && forall k :: 0 <= k < |result.value| ==>
                 raw[AttributeIndices(raw)[k]].attributes == Some(result.value[k])
  {
    AttributeMapsSelectsInOrder(search(request).entries);
    AttributeIndicesExact(search(request).entries);
  }
}
