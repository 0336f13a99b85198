/** Everything about the home image that is computed rather than fetched:
    the root volume size, the names, the fixed device layout and the request
    bodies sent to the provider. */
module Image {
  import opened Wrappers
  import opened Aws

  const GiB: int := 1024 * 1024 * 1024
  const U64Modulus: int := 0x1_0000_0000_0000_0000
  const I64Modulus: int := 0x8000_0000_0000_0000

  /** Rust's `u64`. */
  type u64 = x: int | 0 <= x < 0x1_0000_0000_0000_0000

  /** The root volume size in GiB: a given `--root-size` is used as it is;
      otherwise the logical size is rounded up to whole GiB with
      `(bytes + GiB - 1) / GiB` in checked `u64` arithmetic. The sum is
      evaluated left to right, so `bytes + GiB` itself must fit in a `u64`. */
  function RootSize(rootSize: Option<u64>, logicalBytes: u64): (r: Result<u64, Failure>)
    ensures rootSize.Some? ==> r == Ok(rootSize.value)
    ensures rootSize.None? ==> (r.Ok? <==> logicalBytes + GiB < U64Modulus)
    ensures r.Err? ==> r.error == Panic("attempt to add with overflow")
  {
    match rootSize
    case Some(s) => Ok(s)
    case None =>
      if logicalBytes + GiB >= U64Modulus then Err(Panic("attempt to add with overflow"))
      else Ok(((logicalBytes + GiB - 1) / GiB) as u64)
  }

  /** The computed size is the ceiling of the byte count in GiB: enough GiB
      to hold the bytes, and one fewer would not be (unless there are none). */
  lemma RootSizeIsCeiling(logicalBytes: u64)
    requires RootSize(None, logicalBytes).Ok?
    ensures RootSize(None, logicalBytes).value * GiB >= logicalBytes
    ensures (RootSize(None, logicalBytes).value - 1) * GiB < logicalBytes || logicalBytes == 0
  {
    var r := RootSize(None, logicalBytes).value;
    assert r == (logicalBytes + GiB - 1) / GiB;
  }

  /** A whole number of GiB needs exactly that many GiB. */
  lemma RootSizeOfWholeGiB(n: nat)
    requires n * GiB + GiB < U64Modulus
    ensures RootSize(None, n * GiB) == Ok(n)
  {
    RootSizeIsCeiling(n * GiB);
    var r := RootSize(None, n * GiB).value;
    assert (r - 1) * GiB < n * GiB <= r * GiB || n == 0;
  }

  /** Any remainder costs one more GiB than the quotient, never more. */
  lemma RootSizeRoundsUp(bytes: u64)
    requires bytes + GiB < U64Modulus
    requires bytes % GiB != 0
    ensures RootSize(None, bytes) == Ok(bytes / GiB + 1)
  {
    RootSizeIsCeiling(bytes);
    var r := RootSize(None, bytes).value;
    var q := bytes / GiB;
    assert q * GiB < bytes < q * GiB + GiB;
    assert (r - 1) * GiB < bytes <= r * GiB;
  }

  /** 5 GiB needs 5 GiB; one byte more needs 6. */
  lemma RootSizeScenarios()
    ensures RootSize(None, 5368709120) == Ok(5)
    ensures RootSize(None, 5368709121) == Ok(6)
  {
    RootSizeOfWholeGiB(5);
    RootSizeRoundsUp(5368709121);
  }

  /** `x as i64` for a `u64`: the same bits read as two's complement. */
  function AsI64(x: u64): (r: int)
    ensures -I64Modulus <= r < I64Modulus
    ensures r % U64Modulus == x
    ensures x < I64Modulus ==> r == x
  {
    if x < I64Modulus then x else x - U64Modulus
  }

  /** A root size computed from the image is small enough that the cast to
      `i64` keeps it. */
  lemma ComputedSizeFitsI64(logicalBytes: u64)
    requires RootSize(None, logicalBytes).Ok?
    ensures AsI64(RootSize(None, logicalBytes).value) == RootSize(None, logicalBytes).value
  {
    RootSizeIsCeiling(logicalBytes);
    var r := RootSize(None, logicalBytes).value;
    assert r * GiB < U64Modulus;
  }

  /** `format!("NixOS-{}-{}", label, system)`: the name carried by the tag. */
  function NixosName(buildLabel: string, system: string): (r: string)
    ensures |r| == 7 + |buildLabel| + |system|
    ensures r[..6] == "NixOS-" && r[6..6 + |buildLabel|] == buildLabel
    ensures r[6 + |buildLabel|] == '-' && r[7 + |buildLabel|..] == system
  {
    "NixOS-" + buildLabel + "-" + system
  }

  /** For one system, distinct labels give distinct names. */
  lemma NixosNameInjective(buildLabel1: string, buildLabel2: string, system: string)
    requires NixosName(buildLabel1, system) == NixosName(buildLabel2, system)
    ensures buildLabel1 == buildLabel2
  {
    var n := NixosName(buildLabel1, system);
    assert |buildLabel1| == |buildLabel2|;
    assert buildLabel1 == n[6..6 + |buildLabel1|] == buildLabel2;
  }

  /** The image's display name: the caller's `--name`, else the derived name. */
  function AmiName(name: Option<string>, nixosName: string): (r: string)
    ensures name.Some? ==> r == name.value
    ensures name.None? ==> r == nixosName
  {
    match name
    case Some(n) => n
    case None => nixosName
  }

  /** `format!("NixOS {} {}", label, system)`. */
  function Description(buildLabel: string, system: string): (r: string)
    ensures |r| == 7 + |buildLabel| + |system|
    ensures r[..6] == "NixOS " && r[6..6 + |buildLabel|] == buildLabel
    ensures r[6 + |buildLabel|] == ' ' && r[7 + |buildLabel|..] == system
  {
    "NixOS " + buildLabel + " " + system
  }

  const RootDevice := "/dev/xvda"

  /** The fixed five-entry layout: a gp3 root volume on /dev/xvda built from
      the snapshot and deleted on termination, then the instance-store slots
      /dev/sdb to /dev/sde named ephemeral0 to ephemeral3. */
  function BlockDeviceMappings(snapshotId: string, gbs: u64): (r: seq<BlockDeviceMapping>)
    ensures |r| == 5
    ensures r[0].deviceName == RootDevice && r[0].virtualName.None?
    ensures r[0].ebs == Some(EbsBlockDevice(true, "gp3", snapshotId, AsI64(gbs)))
    ensures forall i :: 1 <= i < 5 ==>
      && r[i].deviceName == "/dev/sd" + [('a' as int + i) as char]
      && r[i].virtualName == Some("ephemeral" + [('0' as int + i - 1) as char])
      && r[i].ebs.None?
  {
    var r :=
      [ BlockDeviceMapping(RootDevice, Some(EbsBlockDevice(true, "gp3", snapshotId, AsI64(gbs))), None),
        BlockDeviceMapping("/dev/sdb", None, Some("ephemeral0")),
        BlockDeviceMapping("/dev/sdc", None, Some("ephemeral1")),
        BlockDeviceMapping("/dev/sdd", None, Some("ephemeral2")),
        BlockDeviceMapping("/dev/sde", None, Some("ephemeral3")) ];
    assert r[1].deviceName == "/dev/sd" + ['b'] && r[1].virtualName.value == "ephemeral" + ['0'];
    assert r[2].deviceName == "/dev/sd" + ['c'] && r[2].virtualName.value == "ephemeral" + ['1'];
    assert r[3].deviceName == "/dev/sd" + ['d'] && r[3].virtualName.value == "ephemeral" + ['2'];
    assert r[4].deviceName == "/dev/sd" + ['e'] && r[4].virtualName.value == "ephemeral" + ['3'];
    r
  }

  /** No two slots share a device, and the root device is the one and only
      volume backed by the snapshot. */
  lemma {:induction false} DeviceLayoutWellFormed(snapshotId: string, gbs: u64)
    ensures var r := BlockDeviceMappings(snapshotId, gbs);
      && (forall i, j :: 0 <= i < j < |r| ==> r[i].deviceName != r[j].deviceName)
      && (forall i :: 0 <= i < |r| ==> (r[i].ebs.Some? <==> r[i].deviceName == RootDevice))
  {
    var r := BlockDeviceMappings(snapshotId, gbs);
    forall i, j | 0 <= i < j < |r| ensures r[i].deviceName != r[j].deviceName {
      if i == 0 {
        assert r[j].deviceName[5] != RootDevice[5];
      } else {
        assert r[i].deviceName[7] != r[j].deviceName[7];
      }
    }
    forall i | 1 <= i < |r| ensures r[i].deviceName != RootDevice {
      assert r[i].deviceName[5] != RootDevice[5];
    }
  }

  /** The `RegisterImage` request body: x86_64, ENA, HVM, the derived
      description, root device /dev/xvda and the fixed layout. */
  function RegisterRequest(amiName: string, buildLabel: string, system: string, snapshotId: string, gbs: u64): (r: RegisterImageRequest)
    ensures r.name == amiName
    ensures r.architecture == "x86_64" && r.enaSupport && r.virtualizationType == "hvm"
    ensures r.description == Description(buildLabel, system)
    ensures r.blockDeviceMappings == BlockDeviceMappings(snapshotId, gbs)
    ensures r.rootDeviceName == r.blockDeviceMappings[0].deviceName
    ensures r.blockDeviceMappings[0].ebs == Some(EbsBlockDevice(true, "gp3", snapshotId, AsI64(gbs)))
  {
    RegisterImageRequest(amiName, "x86_64", true, "hvm", Description(buildLabel, system), RootDevice,
      BlockDeviceMappings(snapshotId, gbs))
  }

  const NameTagKey := "NixOSName"

  /** The one tag applied to an image: `NixOSName` = the derived name. */
  function NameTag(imageId: string, nixosName: string): (r: CreateTagsRequest)
    ensures r.resources == [imageId]
    ensures r.tags == [Tag(NameTagKey, nixosName)]
  {
    CreateTagsRequest([imageId], [Tag(NameTagKey, nixosName)])
  }

  /** The `CopyImage` request body: the home image, by id and region name,
      copied under the display name. */
  function CopyRequest(amiName: string, sourceImageId: string, sourceRegion: Region): (r: CopyImageRequest)
    ensures r.name == amiName && r.sourceImageId == sourceImageId && r.sourceRegion == sourceRegion.name
  {
    CopyImageRequest(amiName, sourceImageId, sourceRegion.name)
  }
}
