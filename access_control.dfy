/**
 * The server's access rules: the authorities a token may carry, the
 * configured token lists, and which authority each protected path needs.
 */
module AccessControl {
  import opened Wrappers
  import opened Text

  const ReadMeshPacket: string := "READ_MESH_PACKET"
  const ReadDeviceInfo: string := "READ_DEVICE_INFO"
  const SendMeshPacket: string := "SEND_MESH_PACKET"

  /** What a read-only token is granted. */
  const ReadOnlyAuthorities: set<string> := {ReadMeshPacket, ReadDeviceInfo}
  /** What a read-write token is granted: the read-only set and sending. */
  const ReadWriteAuthorities: set<string> := ReadOnlyAuthorities + {SendMeshPacket}

  /** Read-write is read-only plus sending, and read-only cannot send. */
  lemma AuthoritySets()
    ensures ReadWriteAuthorities == ReadOnlyAuthorities + {SendMeshPacket}
    ensures SendMeshPacket !in ReadOnlyAuthorities
    ensures ReadOnlyAuthorities < ReadWriteAuthorities
    ensures |ReadOnlyAuthorities| == 2 && |ReadWriteAuthorities| == 3
  {
    assert ReadMeshPacket != ReadDeviceInfo;
    assert SendMeshPacket != ReadMeshPacket && SendMeshPacket != ReadDeviceInfo;
  }

  // ---------------------------------------------------------------- token lists

  /** `tokensFromCsv`: the comma-separated entries, trimmed, blanks dropped, as a set. */
  function TokensFromCsv(csv: string): (r: set<string>)
    ensures forall t :: t in r ==> t != [] && ',' !in t && !IsWhitespace(t[0]) && !IsWhitespace(t[|t| - 1])
  {
    TrimInsideAll(Split(csv, ','));
    set p | p in Split(csv, ',') && !IsBlank(p) :: Trim(p)
  }

  lemma TrimInsideAll(pieces: seq<string>)
    ensures forall p :: p in pieces ==> forall c :: c in Trim(p) ==> c in p
  {
    forall p | p in pieces
      ensures forall c :: c in Trim(p) ==> c in p
    {
      TrimInside(p);
    }
  }

  /** The list is empty exactly when every entry between commas is blank. */
  lemma NoTokensIff(csv: string)
    ensures TokensFromCsv(csv) == {} <==> forall p :: p in Split(csv, ',') ==> IsBlank(p)
  {
    if exists p :: p in Split(csv, ',') && !IsBlank(p) {
      var p :| p in Split(csv, ',') && !IsBlank(p);
      assert Trim(p) in TokensFromCsv(csv);
    }
  }

  /** An empty string, or commas only, configures no token. */
  lemma SeparatorsOnlyIsEmpty(csv: string)
    requires forall i :: 0 <= i < |csv| ==> csv[i] == ','
    ensures TokensFromCsv(csv) == {}
  {
    SplitOfSeparators(csv, ',');
    NoTokensIff(csv);
  }

  /**
   * Writing tokens comma-separated and reading them back gives the same
   * tokens, when none is empty, contains a comma or has surrounding
   * whitespace.
   */
  lemma CsvRoundTrip(tokens: seq<string>)
    requires |tokens| >= 1
    requires forall i :: 0 <= i < |tokens| ==> tokens[i] != [] && ',' !in tokens[i]
    requires forall i :: 0 <= i < |tokens| ==> !IsWhitespace(tokens[i][0]) && !IsWhitespace(tokens[i][|tokens[i]| - 1])
    ensures TokensFromCsv(Join(tokens, ',')) == set t | t in tokens
  {
    var csv := Join(tokens, ',');
    SplitJoin(tokens, ',');
    assert Split(csv, ',') == tokens;
    forall t | t in tokens
      ensures !IsBlank(t) && Trim(t) == t
    {
      TrimFixed(t);
    }
    forall t | t in TokensFromCsv(csv)
      ensures t in tokens
    {
      var p :| p in tokens && !IsBlank(p) && Trim(p) == t;
    }
    forall t | t in tokens
      ensures t in TokensFromCsv(csv)
    {
      assert t in Split(csv, ',') && !IsBlank(t);
    }
  }

  // ---------------------------------------------------------------- paths

  /**
   * The authority the path rules demand: `/ws/packet`, everything under
   * `/device/`, and `/send/meshPacket` each need one; any other path needs
   * only an authenticated caller.
   */
  function RequiredAuthority(path: string): (r: Option<string>)
    ensures r.Some? ==> r.value in ReadWriteAuthorities
    ensures r == Some(ReadMeshPacket) <==> path == "/ws/packet"
    ensures r == Some(ReadDeviceInfo) <==> (path == "/device" || StartsWith(path, "/device/"))
    ensures r == Some(SendMeshPacket) <==> path == "/send/meshPacket"
  {
    AuthoritySets();
    assert "/ws/packet"[1] == 'w' && "/send/meshPacket"[1] == 's' && "/device"[1] == 'd';
    assert StartsWith(path, "/device/") ==> path[1] == 'd';
    if path == "/ws/packet" then Some(ReadMeshPacket)
    else if path == "/device" || StartsWith(path, "/device/") then Some(ReadDeviceInfo)
    else if path == "/send/meshPacket" then Some(SendMeshPacket)
    else None
  }

  /** The authorisation decision: an authenticated caller holding the path's authority, if it needs one. */
  predicate Permitted(path: string, authorities: Option<set<string>>): (r: bool)
    ensures r ==> authorities.Some?
    ensures authorities.Some? && ReadWriteAuthorities <= authorities.value ==> r
  {
    authorities.Some? &&
    (RequiredAuthority(path).None? || RequiredAuthority(path).value in authorities.value)
  }

  /**
   * A read-write token may use every path; a read-only token every path but
   * sending; a caller with no authentication none.
   */
  lemma PathAccess(path: string)
    ensures Permitted(path, Some(ReadWriteAuthorities))
    ensures Permitted(path, Some(ReadOnlyAuthorities)) <==> RequiredAuthority(path) != Some(SendMeshPacket)
    ensures !Permitted(path, None)
  {
    AuthoritySets();
  }
}
