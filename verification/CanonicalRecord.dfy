/** Domain-separated hash preimages. */
module CanonicalRecord {
  import opened Core
  import opened Wire

  /** The identities that the library computes itself. */
  datatype Domain =
    | PackageSourceRecord
    | InstalledControl
    | InstallationReceipt
    | InstalledPackage
    | OwnershipInventory
    | TargetBinding
    | InstalledSnapshot
    | PublicationRequest
    | PublicationReceipt
  {
    function Name(): string {
      match this
      case PackageSourceRecord => "pkgstate/package-source-record/1"
      case InstalledControl => "pkgstate/installed-control/1"
      case InstallationReceipt => "pkgstate/installation-receipt/1"
      case InstalledPackage => "pkgstate/installed-package/1"
      case OwnershipInventory => "pkgstate/ownership-inventory/1"
      case TargetBinding => "pkgstate/target-binding/1"
      case InstalledSnapshot => "pkgstate/installed-snapshot/1"
      case PublicationRequest => "pkgstate/publication-request/1"
      case PublicationReceipt => "pkgstate/publication-receipt/1"
    }

    function Text(): (r: Bytes)
      ensures |r| == |Name()| < 64
      ensures forall i :: 0 <= i < |r| ==> r[i] == (Name()[i] as int) % 256
    {
      seq(|Name()|, i requires 0 <= i < |Name()| => (Name()[i] as int) % 256)
    }
  }

  const RECORD_MAGIC: Bytes := [112, 107, 103, 115, 116, 97, 116, 101, 0]   // pkgstate\0

  function Header(domain: Domain): Bytes { RECORD_MAGIC + EncU16(1) + EncBytes(domain.Text()) }

  function Preimage(domain: Domain, body: Bytes): Bytes { Header(domain) + body }

  function Identify(domain: Domain, body: Bytes): Digest { SHA256(Preimage(domain, body)) }

  lemma DomainsDiffer(d: Domain, e: Domain)
    requires d.Text() == e.Text()
    ensures d == e
  {
    hide Domain.Text;
    assert |d.Name()| == |e.Name()|;
    if |d.Name()| == 28 {
      assert d.Text()[19] == e.Text()[19];
    } else if |d.Name()| == 30 {
      assert d.Text()[9] == e.Text()[9];
      assert d.Text()[23] == e.Text()[23];
    }
  }

  /** Distinct domains or distinct bodies give distinct preimages. */
  lemma PreimageInjective(d: Domain, a: Bytes, e: Domain, b: Bytes)
    requires Preimage(d, a) == Preimage(e, b)
    ensures d == e && a == b
  {
    hide EncBytes, ParseBytes, EncU16, Domain.Name, Domain.Text;
    assert Preimage(d, a) == RECORD_MAGIC + (EncU16(1) + (EncBytes(d.Text()) + a));
    assert Preimage(e, b) == RECORD_MAGIC + (EncU16(1) + (EncBytes(e.Text()) + b));
    TakePrefix(RECORD_MAGIC, EncU16(1) + (EncBytes(d.Text()) + a));
    TakePrefix(RECORD_MAGIC, EncU16(1) + (EncBytes(e.Text()) + b));
    TakePrefix(EncU16(1), EncBytes(d.Text()) + a);
    TakePrefix(EncU16(1), EncBytes(e.Text()) + b);
    BytesRoundTrip(d.Text(), a);
    BytesRoundTrip(e.Text(), b);
    DomainsDiffer(d, e);
  }
}
