// Which mount points and device paths can coincide.
module PathTheorems {
  import opened Text
  import opened ApiTypes
  import opened Host
  import opened VolumeProtocol

  // Mount points are under the managed prefix and tell family and name apart.
  lemma MountPathsDistinct(prefix: string, name1: string, name2: string)
    ensures HasPrefix(MountPath(prefix, TMPFS, name1), prefix)
    ensures HasPrefix(MountPath(prefix, DISK_FAMILY, name1), prefix)
    ensures MountPath(prefix, TMPFS, name1) != MountPath(prefix, DISK_FAMILY, name2)
    ensures MountPath(prefix, TMPFS, name1) == MountPath(prefix, TMPFS, name2) ==> name1 == name2
    ensures MountPath(prefix, DISK_FAMILY, name1) == MountPath(prefix, DISK_FAMILY, name2) ==> name1 == name2
  {
    var n := |prefix|;
    assert MountPath(prefix, TMPFS, name1)[n + 1] == 't';
    assert MountPath(prefix, DISK_FAMILY, name2)[n + 1] == 'g';
    assert MountPath(prefix, TMPFS, name1)[n + 8..] == name1;
    assert MountPath(prefix, TMPFS, name2)[n + 8..] == name2;
    assert MountPath(prefix, DISK_FAMILY, name1)[n + 22..] == name1;
    assert MountPath(prefix, DISK_FAMILY, name2)[n + 22..] == name2;
  }

  function PartitionSuffix(partition: int): string {
    if partition > 0 then "-part" + Decimal(partition) else ""
  }

  lemma DevicePathSplits(pdName: string, partition: int)
    ensures DevicePath(pdName, partition) == DEVICE_PREFIX + (pdName + PartitionSuffix(partition))
  {
    if partition > 0 {
      assert DEVICE_PREFIX + pdName + "-part" + Decimal(partition)
          == DEVICE_PREFIX + (pdName + ("-part" + Decimal(partition)));
    } else {
      assert pdName + "" == pdName;
    }
  }

  // In a name with a partition suffix, everything after the last dash is "part" and digits.
  lemma LastDash(pdName: string, n: nat, s: string)
    requires n > 0 && s == pdName + PartitionSuffix(n)
    ensures |s| > |pdName| && s[|pdName|] == '-'
    ensures forall i :: |pdName| < i < |s| ==> s[i] != '-'
  {
    var digits := Decimal(n);
    assert s == pdName + ("-part" + digits);
    forall i | |pdName| < i < |s|
      ensures s[i] != '-'
    {
      if i >= |pdName| + 5 {
        assert s[i] == digits[i - |pdName| - 5];
      } else {
        assert s[i] == "-part"[i - |pdName|];
      }
    }
  }

  lemma SuffixedNamesDistinct(pd1: string, n1: nat, pd2: string, n2: nat)
    requires n1 > 0 && n2 > 0 && pd1 + PartitionSuffix(n1) == pd2 + PartitionSuffix(n2)
    ensures pd1 == pd2 && n1 == n2
  {
    var s := pd1 + PartitionSuffix(n1);
    LastDash(pd1, n1, s);
    LastDash(pd2, n2, s);
    assert |pd1| == |pd2|;
    assert pd1 == s[..|pd1|] && pd2 == s[..|pd2|];
    assert Decimal(n1) == s[|pd1| + 5..] && Decimal(n2) == s[|pd2| + 5..];
    DecimalInjective(n1, n2);
  }

  // The same disk and the same partition, or one disk's name is the other's with its
  // partition suffix.
  predicate SameDevice(pd1: string, part1: int, pd2: string, part2: int) {
    || (pd1 == pd2 && (part1 == part2 || (part1 <= 0 && part2 <= 0)))
    || (part1 <= 0 < part2 && pd1 == pd2 + PartitionSuffix(part2))
    || (part2 <= 0 < part1 && pd2 == pd1 + PartitionSuffix(part1))
  }

  // Two disk volumes share a device path exactly then.
  lemma DevicePathsAlias(pd1: string, part1: int, pd2: string, part2: int)
    ensures DevicePath(pd1, part1) == DevicePath(pd2, part2) <==> SameDevice(pd1, part1, pd2, part2)
  {
    DevicePathSplits(pd1, part1);
    DevicePathSplits(pd2, part2);
    var s1, s2 := pd1 + PartitionSuffix(part1), pd2 + PartitionSuffix(part2);
    assert (DEVICE_PREFIX + s1)[|DEVICE_PREFIX|..] == s1 && (DEVICE_PREFIX + s2)[|DEVICE_PREFIX|..] == s2;
    assert DevicePath(pd1, part1) == DevicePath(pd2, part2) <==> s1 == s2;
    if s1 == s2 && part1 > 0 && part2 > 0 {
      SuffixedNamesDistinct(pd1, part1, pd2, part2);
    }
    assert part1 <= 0 ==> s1 == pd1;
    assert part2 <= 0 ==> s2 == pd2;
  }

  ghost predicate EndsInPartition(pdName: string) {
    exists q, n: nat :: n > 0 && pdName == q + PartitionSuffix(n)
  }

  // Without disk names that end in a partition suffix, device paths identify disk and partition.
  lemma DevicePathsDistinct(pd1: string, part1: int, pd2: string, part2: int)
    requires !EndsInPartition(pd1) && !EndsInPartition(pd2)
    requires DevicePath(pd1, part1) == DevicePath(pd2, part2)
    ensures pd1 == pd2 && (part1 == part2 || (part1 <= 0 && part2 <= 0))
  {
    DevicePathsAlias(pd1, part1, pd2, part2);
  }

  // Partition 1 of disk x and the disk named x-part1 are the same device to konlet.
  lemma AliasExample()
    ensures DevicePath("x", 1) == DevicePath("x-part1", 0)
  {
    assert Decimal(1) == "1";
    assert "x" + PartitionSuffix(1) == "x-part1";
    DevicePathsAlias("x-part1", 0, "x", 1);
  }

  // Different partitions of one disk are different devices with one mount point.
  lemma PartitionsShareMountPoint(prefix: string, disk: GcePersistentDisk, partition: int, readOnly: bool)
    requires 0 < partition != disk.partition
    ensures var m1, m2 := DiskMount(prefix, disk, readOnly), DiskMount(prefix, disk.(partition := partition), readOnly);
      m1.device != m2.device && m1.mountPoint == m2.mountPoint
  {
    DevicePathsAlias(disk.pdName, disk.partition, disk.pdName, partition);
  }
}
