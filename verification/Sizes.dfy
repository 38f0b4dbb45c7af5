/**
 Volume sizes and capability lists (pkg/driver/utils.go, the capability tables of
 pkg/driver/driver.go). Machine integers are written out: the rounding is done modulo
 2^64 and the result is later converted to a signed 64-bit size.
 */
module Sizes {
  import opened Text
  import opened Words

  const GB := 0x4000_0000

  /** roundUp, with the wrap-around of its uint64 product. */
  function RoundUp(num: nat, base: nat): nat
    requires 0 < base
  {
    var div := num / base + if num % base > 0 then 1 else 0;
    div * base % TWO64
  }

  /** getVolumeSize: `None` is InvalidArgument. */
  function VolumeSize(required: int, limit: int): Option<nat> {
    if required < 0 && limit < 0 then None
    else if required > 0 then Some(RoundUp(required, GB))
    else if limit > 0 then Some(RoundUp(limit, GB))
    else Some(GB)
  }

  /** The request a size answers: required bytes, else the limit, else one GB. */
  function Request(required: int, limit: int): nat {
    if required > 0 then required else if limit > 0 then limit else GB
  }

  lemma RoundUpFacts(num: nat)
    requires num <= TWO63
    ensures RoundUp(num, GB) % GB == 0 && num <= RoundUp(num, GB) < num + GB
  {
  }

  /** Two multiples of GB that are less than GB apart are equal. */
  lemma MultiplesApart(a: nat, b: nat)
    requires a % GB == 0 && b % GB == 0 && a < b
    ensures a + GB <= b
  {
  }

  /** Every accepted pair of int64 bounds gives the least positive multiple of 2^30 at or above
      its request, without wrapping; the signed size the volume is created with is that same
      number exactly when the request is at most 2^63 - 2^30. */
  lemma SizeIsLeastMultiple(required: int, limit: int, other: nat)
    requires Int64(required) && Int64(limit)
    ensures VolumeSize(required, limit).None? <==> required < 0 && limit < 0
    ensures VolumeSize(required, limit).Some? ==>
              var size, request := VolumeSize(required, limit).value, Request(required, limit);
              && size > 0 && size % 1073741824 == 0 && request <= size < 18446744073709551616
              && (other % 1073741824 == 0 && other >= request ==> size <= other)
              && (ToInt64(size) == size <==> request <= 9223372036854775808 - 1073741824)
              && request == (if required > 0 then required else if limit > 0 then limit else 1073741824)
  {
    var request := Request(required, limit);
    RoundUpFacts(request);
    RoundUpFacts(GB);
    if VolumeSize(required, limit).Some? {
      var size := VolumeSize(required, limit).value;
      assert size % GB == 0 && request <= size < request + GB;
      if other % GB == 0 && request <= other < size {
        MultiplesApart(other, size);
      }
      if size < TWO63 {
        MultiplesApart(size, TWO63);
      }
    }
  }

  /** Rounding is monotone, and rounding again changes nothing. */
  lemma RoundUpMonotoneIdempotent(a: nat, b: nat)
    requires a <= b <= TWO63
    ensures RoundUp(a, GB) <= RoundUp(b, GB) <= TWO63
    ensures RoundUp(RoundUp(a, GB), GB) == RoundUp(a, GB)
  {
  }

  // ---- Capabilities ----

  datatype Mode =
    | UnknownMode
    | SingleNodeWriter
    | SingleNodeReaderOnly
    | MultiNodeReaderOnly
    | MultiNodeSingleWriter
    | MultiNodeMultiWriter

  /** `NoCap` is a nil list element; `mount` is the file system type of a mount capability,
      `None` for a block capability or one without access type. */
  datatype Cap = NoCap | Cap(mode: Option<Mode>, mount: Option<string>)

  const SUPPORTED_FS := {"ext2", "ext3", "ext4", "xfs"}
  const MOUNT_MODES := {SingleNodeReaderOnly, SingleNodeWriter}
  const BLOCK_MODES := {
    SingleNodeReaderOnly, SingleNodeWriter, MultiNodeMultiWriter, MultiNodeReaderOnly, MultiNodeSingleWriter}
  const SHARING: map<Mode, bool> := map[
    SingleNodeReaderOnly := false, SingleNodeWriter := false,
    MultiNodeMultiWriter := true, MultiNodeReaderOnly := true, MultiNodeSingleWriter := true]

  /** c.GetAccessMode().GetMode(), nil-safe. */
  function ModeOf(c: Cap): Mode {
    if c.Cap? && c.mode.Some? then c.mode.value else UnknownMode
  }

  predicate Acceptable(c: Cap) {
    && c.Cap? && c.mode.Some?
    && if c.mount.Some?
       then c.mode.value in MOUNT_MODES && (c.mount.value == "" || c.mount.value in SUPPORTED_FS)
       else c.mode.value in BLOCK_MODES
  }

  predicate MultiNode(c: Cap) {
    ModeOf(c) in {MultiNodeReaderOnly, MultiNodeSingleWriter, MultiNodeMultiWriter}
  }

  /** Which capabilities are acceptable: an access mode must be given; a mounted volume is for one
      node, as ext2, ext3, ext4, xfs or no type named, and a block volume takes any known mode. */
  lemma AcceptableExactly(c: Cap)
    ensures Acceptable(c) <==>
            && c.Cap? && c.mode.Some? && !c.mode.value.UnknownMode?
            && (c.mount.Some? ==>
                  && (c.mode.value.SingleNodeWriter? || c.mode.value.SingleNodeReaderOnly?)
                  && (c.mount.value == "" || c.mount.value == "ext2" || c.mount.value == "ext3"
                      || c.mount.value == "ext4" || c.mount.value == "xfs"))
  {
  }

  /** checkVolumeCapabilities. */
  method CheckVolumeCapabilities(caps: seq<Cap>) returns (ok: bool)
    ensures ok <==> caps != [] && forall c :: c in caps ==> Acceptable(c)
  {
    if |caps| == 0 {
      return false;
    }
    for i := 0 to |caps|
      invariant forall c :: c in caps[..i] ==> Acceptable(c)
    {
      var c := caps[i];
      assert c in caps;
      if c.NoCap? || c.mode.None? {
        return false;
      }
      if c.mount.Some? {
        if c.mode.value !in MOUNT_MODES {
          return false;
        }
        var fsType := c.mount.value;
        if fsType == "" {
          fsType := "ext4";
        }
        if fsType !in SUPPORTED_FS {
          return false;
        }
      } else if c.mode.value !in BLOCK_MODES {
        return false;
      }
      assert caps[..i + 1] == caps[..i] + [c];
    }
    return true;
  }

  /** checkNeedSharing: the scan stops at the first mode that needs sharing, so an unknown
      mode is an error only when it comes before every multi-node one. */
  method CheckNeedSharing(caps: seq<Cap>) returns (r: Option<bool>)
    ensures r == NeedSharing(caps)
  {
    for i := 0 to |caps|
      invariant NeedSharing(caps) == NeedSharing(caps[i..])
    {
      var mode := ModeOf(caps[i]);
      assert caps[i..][1..] == caps[i + 1..];
      if mode !in SHARING {
        return None;
      }
      if SHARING[mode] {
        return Some(true);
      }
    }
    return Some(false);
  }

  function NeedSharing(caps: seq<Cap>): Option<bool> {
    if caps == [] then Some(false)
    else if ModeOf(caps[0]) !in SHARING then None
    else if SHARING[ModeOf(caps[0])] then Some(true)
    else NeedSharing(caps[1..])
  }

  /** The answer on any list: an error exactly when a capability without a known mode comes before
      every multi-node one, and otherwise whether there is a multi-node one. */
  lemma {:induction false} SharingExactly(caps: seq<Cap>)
    ensures NeedSharing(caps).None? <==>
            exists i :: 0 <= i < |caps| && ModeOf(caps[i]).UnknownMode?
              && forall j :: 0 <= j < i ==> !MultiNode(caps[j])
    ensures NeedSharing(caps).Some? ==> (NeedSharing(caps).value <==> exists c :: c in caps && MultiNode(c))
  {
    if caps != [] {
      var rest := caps[1..];
      assert caps == [caps[0]] + rest;
      SharingExactly(rest);
      assert ModeOf(caps[0]) in SHARING <==> !ModeOf(caps[0]).UnknownMode?;
      assert ModeOf(caps[0]) in SHARING ==> (SHARING[ModeOf(caps[0])] <==> MultiNode(caps[0]));
      if ModeOf(caps[0]) in SHARING && !MultiNode(caps[0]) {
        assert forall i :: 0 < i < |caps| ==> rest[i - 1] == caps[i];
        assert forall i :: 0 <= i < |rest| ==> rest[i] == caps[i + 1];
      }
    }
  }

  /** An accepted list always gets an answer, which is whether some capability is multi-node;
      every multi-node capability in it is a block one. */
  lemma {:induction false} AcceptedSharing(caps: seq<Cap>)
    requires forall c :: c in caps ==> Acceptable(c)
    ensures NeedSharing(caps) == Some(exists c :: c in caps && MultiNode(c))
    ensures forall c :: c in caps && MultiNode(c) ==> c.mount.None?
  {
    if caps != [] {
      assert caps == [caps[0]] + caps[1..];
      AcceptedSharing(caps[1..]);
      assert Acceptable(caps[0]);
      assert ModeOf(caps[0]) in SHARING && (SHARING[ModeOf(caps[0])] <==> MultiNode(caps[0]));
      assert (exists c :: c in caps && MultiNode(c)) <==>
             MultiNode(caps[0]) || exists c :: c in caps[1..] && MultiNode(c);
    }
  }

  /** The answer does not depend on the order of an accepted list. */
  lemma SharingIgnoresOrder(caps: seq<Cap>, caps': seq<Cap>)
    requires forall c :: c in caps ==> Acceptable(c)
    requires multiset(caps) == multiset(caps')
    ensures NeedSharing(caps') == NeedSharing(caps)
  {
    assert forall c :: c in caps <==> c in multiset(caps);
    assert forall c :: c in caps' <==> c in multiset(caps');
    AcceptedSharing(caps);
    AcceptedSharing(caps');
  }
}
