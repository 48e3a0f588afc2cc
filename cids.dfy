/** `toOtherCidVersion` of peer.js. The multiformats library it calls
    (`CID.parse`, `toV0`, `toV1`, `String(cid)`) is a parameter: a parsed CID
    is seen only through its version, its codec and its multihash. */
module Cids {

  import opened Wrappers

  datatype ParsedCid = ParsedCid(version: nat, codec: nat, multihash: seq<int>)

  /** The library's operations; `None` stands for a call that throws
      (`CID.parse` on a malformed string, `toV0` on a CID that has no version 0
      form). */
  datatype CidLibrary = CidLibrary(
    parse: string -> Option<ParsedCid>,
    format: ParsedCid -> string,
    toV0: ParsedCid -> Option<ParsedCid>,
    toV1: ParsedCid -> ParsedCid)

  /** `c` is a CID the library itself produces: some string parses to it. */
  ghost predicate Produced(lib: CidLibrary, c: ParsedCid)
  {
    exists s :: lib.parse(s) == Some(c)
  }

  /** What the model relies on of the library, for the CIDs it produces only:
      only versions 0 and 1 parse, and a parsed CID comes back from its string
      form; a version 0 CID converts to version 1 and back, and a version 1
      CID that converts to version 0 converts back too; each converted CID
      comes back from its string form. */
  ghost predicate Lawful(lib: CidLibrary)
  {
    && (forall s :: lib.parse(s).Some? ==>
          lib.parse(s).value.version <= 1 && lib.parse(lib.format(lib.parse(s).value)) == lib.parse(s))
    && (forall c: ParsedCid :: Produced(lib, c) && c.version == 0 ==>
          && lib.toV1(c).version == 1
          && lib.parse(lib.format(lib.toV1(c))) == Some(lib.toV1(c))
          && lib.toV0(lib.toV1(c)) == Some(c))
    && (forall c: ParsedCid :: Produced(lib, c) && c.version == 1 && lib.toV0(c).Some? ==>
          && lib.toV0(c).value.version == 0
          && lib.parse(lib.format(lib.toV0(c).value)) == Some(lib.toV0(c).value)
          && lib.toV1(lib.toV0(c).value) == c)
  }

  /** A library with one dag-pb CID in its two versions, as the version 0 form
      in multiformats is always dag-pb with a sha2-256 hash, obeys the laws. */
  lemma LawfulWitness()
    ensures exists lib :: && Lawful(lib) && lib.parse("v0").Some?
                          && lib.parse("v0").value.version == 0 && lib.parse("v0").value.codec == 0x70
  {
    var v0 := ParsedCid(0, 0x70, [0x12, 0x20]);
    var v1 := ParsedCid(1, 0x70, [0x12, 0x20]);
    var lib := CidLibrary(
      s => if s == "v0" then Some(v0) else if s == "v1" then Some(v1) else None,
      c => if c == v0 then "v0" else if c == v1 then "v1" else "",
      c => if c == v1 then Some(v0) else None,
      c => if c == v0 then v1 else c);
    forall c: ParsedCid | Produced(lib, c)
      ensures c == v0 || c == v1
    {
      var s :| lib.parse(s) == Some(c);
    }
    assert Lawful(lib);
  }

  /** A CID string that is the library's own rendering of what it parses to. */
  ghost predicate Canonical(lib: CidLibrary, s: string)
  {
    lib.parse(s).Some? && lib.format(lib.parse(s).value) == s
  }

  /** `toOtherCidVersion(cidStr)`: version 0 becomes version 1, anything else
      version 0. `None` when the conversion throws. */
  function ToOtherCidVersion(lib: CidLibrary, cid: string): (other: Option<string>)
    ensures lib.parse(cid).None? ==> other.None?
    ensures lib.parse(cid).Some? && lib.parse(cid).value.version == 0 ==> other.Some?
  {
    match lib.parse(cid)
    case None => None
    case Some(c) =>
      if c.version == 0 then Some(lib.format(lib.toV1(c)))
      else
        match lib.toV0(c)
        case None => None
        case Some(c0) => Some(lib.format(c0))
  }

  /** The converted CID parses, and to the other version. */
  lemma OtherVersionFlips(lib: CidLibrary, cid: string)
    requires Lawful(lib)
    requires ToOtherCidVersion(lib, cid).Some?
    ensures lib.parse(cid).Some?
    ensures var other := lib.parse(ToOtherCidVersion(lib, cid).value);
            other.Some? && other.value.version == 1 - lib.parse(cid).value.version
  {
    assert Produced(lib, lib.parse(cid).value);
  }

  /** Converting twice gives back a canonical CID string. */
  lemma FlipTwice(lib: CidLibrary, cid: string)
    requires Lawful(lib) && Canonical(lib, cid)
    requires ToOtherCidVersion(lib, cid).Some?
    ensures ToOtherCidVersion(lib, ToOtherCidVersion(lib, cid).value) == Some(cid)
  {
    var c := lib.parse(cid).value;
    assert Produced(lib, c);
    if c.version == 0 {
      assert lib.parse(lib.format(lib.toV1(c))) == Some(lib.toV1(c));
    } else {
      var c0 := lib.toV0(c).value;
      assert lib.parse(lib.format(c0)) == Some(c0);
    }
  }
}
