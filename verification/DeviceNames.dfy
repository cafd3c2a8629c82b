/** The names under which a volume is expected to show up (`GetVolumeDirectoryName` and the
    `getDirectoryName` functions of pkg/utils/volume_utils.go). */
module DeviceNames {
  import opened Text
  import opened NovaLookup

  const BY_ID := "/dev/disk/by-id/"
  const VIOS := "wwn-0x"
  const LIO := "wwn-0x6001405"
  const XIV := "scsi-2"
  const KVM := "scsi-0QEMU_QEMU_HARDDISK_"

  /** A slice of the source panics when the text is too short: None. */
  function Take(s: string, n: nat): Option<string> {
    if n <= |s| then Some(s[..n]) else None
  }

  function Digits(id: string): string { ReplaceAll(id, "-", "") }

  function LioName(id: string): Option<string> {
    match Take(Digits(id), 25)
    case None => None
    case Some(digits) => Some(BY_ID + LIO + digits)
  }

  function KvmName(id: string): Option<string> {
    match Take(id, 20)
    case None => None
    case Some(start) => Some(BY_ID + KVM + start)
  }

  function ViosName(wwn: string): string {
    BY_ID + VIOS + ToLower(wwn)
  }

  function XivName(wwn: string): string {
    if wwn == [] then BY_ID else BY_ID + XIV + ToLower(wwn)
  }

  // ----- which of them is used

  datatype Volume = Volume(id: string, wwn: string, backendHost: string)

  /** The registration of a storage host: an error, none, or its type. */
  datatype Registration = LookupFailed | Unregistered | Registered(hostType: string)

  /** A name, an error, or a panic. */
  datatype Answer = Name(path: string) | Failed | Panicked

  function OrPanic(name: Option<string>): Answer {
    match name
    case None => Panicked
    case Some(path) => Name(path)
  }

  predicate IsKvm(hypType: string) { hypType in {"libvirt", "kvm", "novalink-kvm"} }

  predicate IsPowerVm(hypType: string) { hypType in {"phyp", "powervm"} }

  /** The answer for a host of this type. */
  function NameOnHost(hypType: string, volume: Volume, registration: Registration): Answer {
    if IsKvm(hypType) then OrPanic(KvmName(volume.id))
    else if IsPowerVm(hypType) then
      match registration
      case LookupFailed => Failed
      case Unregistered => Name(ViosName(volume.wwn))
      case Registered(hostType) =>
        if hostType == "gpfs" then OrPanic(LioName(volume.id))
        else if hostType == "xiv" then Name(XivName(volume.wwn))
        else Name(ViosName(volume.wwn))
    else Name([])
  }

  /** The address index that the lookup works on: without a list of servers it has no entry. */
  function IndexOf(vms: Option<seq<Server>>): IpIndex {
    if vms.None? then map[] else IpIndexOf(vms.value)
  }

  /** What GetVolumeDirectoryName answers. `vms` and `failed` are the list and the error of the listing of
      servers (a failed one comes without a list), `hosts` maps a host to its type, None for an error. */
  function DirectoryName(vms: Option<seq<Server>>, failed: bool, hosts: Option<map<string, string>>, address: string,
                         volume: Volume, registration: Registration): Answer {
    if (vms.Some? && failed) || hosts.None? then Failed
    else if address !in IndexOf(vms) || IndexOf(vms)[address].host !in hosts.value then Name([])
    else NameOnHost(hosts.value[IndexOf(vms)[address].host], volume, registration)
  }

  // ----- the names, spelled out

  ghost function WithoutDashes(s: string): string {
    if s == [] then [] else (if s[0] == '-' then [] else [s[0]]) + WithoutDashes(s[1..])
  }

  lemma {:induction false} DigitsAreWithoutDashes(s: string)
    ensures Digits(s) == WithoutDashes(s)
  {
    assert "-"[0] == '-';
    if s == [] {
    } else {
      DigitsAreWithoutDashes(s[1..]);
      assert "-" <= s <==> s[0] == '-';
      assert "" + Digits(s[1..]) == Digits(s[1..]);
    }
  }

  /** The answer for a volume by the type of the host and the registration of its storage. */
  ghost predicate IsNameFor(hypType: string, volume: Volume, registration: Registration, answer: Answer) {
    if hypType == "libvirt" || hypType == "kvm" || hypType == "novalink-kvm" then
      answer == if |volume.id| < 20 then Panicked
                else Name("/dev/disk/by-id/scsi-0QEMU_QEMU_HARDDISK_" + volume.id[..20])
    else if hypType == "phyp" || hypType == "powervm" then
      if registration == LookupFailed then answer == Failed
      else if registration == Registered("gpfs") then
        answer == if |WithoutDashes(volume.id)| < 25 then Panicked
                  else Name("/dev/disk/by-id/wwn-0x6001405" + WithoutDashes(volume.id)[..25])
      else if registration == Registered("xiv") then
        answer == Name(if volume.wwn == "" then "/dev/disk/by-id/" else "/dev/disk/by-id/scsi-2" + ToLower(volume.wwn))
      else answer == Name("/dev/disk/by-id/wwn-0x" + ToLower(volume.wwn))
    else answer == Name("")
  }

  lemma KvmPrefix()
    ensures BY_ID + KVM == "/dev/disk/by-id/scsi-0QEMU_QEMU_HARDDISK_"
  {
  }

  lemma LioPrefix()
    ensures BY_ID + LIO == "/dev/disk/by-id/wwn-0x6001405"
  {
  }

  lemma WwnPrefixes()
    ensures BY_ID == "/dev/disk/by-id/"
    ensures BY_ID + XIV == "/dev/disk/by-id/scsi-2"
    ensures BY_ID + VIOS == "/dev/disk/by-id/wwn-0x"
  {
  }

  lemma NameOnHostIsExact(hypType: string, volume: Volume, registration: Registration)
    ensures IsNameFor(hypType, volume, registration, NameOnHost(hypType, volume, registration))
  {
    KvmPrefix();
    LioPrefix();
    WwnPrefixes();
    DigitsAreWithoutDashes(volume.id);
    hide Digits, WithoutDashes, ToLower;
  }

  /** What is answered when both listings are usable: the name for the last listed owner of the address, or
      the empty one without an owner or without its host. */
  ghost predicate IsAnswerFor(vms: Option<seq<Server>>, hosts: map<string, string>, address: string, volume: Volume,
                              registration: Registration, answer: Answer) {
    && (vms.None? ==> answer == Name(""))
    && (vms.Some? && (forall k :: !IsLastOwner(vms.value, k, address)) ==> answer == Name(""))
    && (vms.Some? ==> forall k :: IsLastOwner(vms.value, k, address) ==>
          if vms.value[k].host in hosts then IsNameFor(hosts[vms.value[k].host], volume, registration, answer)
          else answer == Name(""))
  }

  lemma DirectoryNameIsExact(vms: Option<seq<Server>>, failed: bool, hosts: Option<map<string, string>>, address: string,
                             volume: Volume, registration: Registration)
    ensures var answer := DirectoryName(vms, failed, hosts, address, volume, registration);
            if (vms.Some? && failed) || hosts.None? then answer == Failed
            else IsAnswerFor(vms, hosts.value, address, volume, registration, answer)
  {
    hide NameOnHost, IsNameFor, IpIndexOf, IsLastOwner;
    if vms.Some? {
      LastOwnerWins(vms.value, address);
    }
    if hosts.Some? && address in IndexOf(vms) && IndexOf(vms)[address].host in hosts.value {
      NameOnHostIsExact(hosts.value[IndexOf(vms)[address].host], volume, registration);
    }
  }

  /** GetVolumeDirectoryName, on the index that CreateVMIPToVMDetailsMap returns. */
  method GetVolumeDirectoryName(vms: Option<seq<Server>>, failed: bool, hosts: Option<map<string, string>>,
                                address: string, volume: Volume, registration: Registration)
    returns (answer: Answer)
    ensures answer == DirectoryName(vms, failed, hosts, address, volume, registration)
    ensures if (vms.Some? && failed) || hosts.None? then answer == Failed
            else IsAnswerFor(vms, hosts.value, address, volume, registration, answer)
  {
    DirectoryNameIsExact(vms, failed, hosts, address, volume, registration);
    hide IsAnswerFor, NameOnHost;
    var index, err := CreateVMIPToVMDetailsMap(vms, failed);
    if err || hosts.None? {
      return Failed;
    }
    if index.Some? && address in index.value {
      var host := index.value[address].host;
      if host in hosts.value {
        return NameOnHost(hosts.value[host], volume, registration);
      }
    }
    return Name([]);
  }

  /** The empty name is answered, without an error, exactly when the hosts could be listed and either there
      is no list of servers, which is how a failed listing of them arrives, or no listed server owns the
      address, or the host of its last owner is unknown, or the type of that host is not on the lists.
      attach then reports success with an empty device. */
  lemma EmptyNameExactly(vms: Option<seq<Server>>, failed: bool, hosts: Option<map<string, string>>, address: string,
                         volume: Volume, registration: Registration)
    ensures DirectoryName(vms, failed, hosts, address, volume, registration) == Name([]) <==>
            hosts.Some?
            && (vms.None?
                || (!failed
                    && forall k :: IsLastOwner(vms.value, k, address) ==>
                         vms.value[k].host !in hosts.value
                         || !(IsKvm(hosts.value[vms.value[k].host]) || IsPowerVm(hosts.value[vms.value[k].host]))))
  {
    hide IsKvm, IsPowerVm, KvmName, LioName, ViosName, XivName;
    NamesAreNotEmpty(volume.id, volume.wwn);
    if vms.Some? {
      LastOwnerWins(vms.value, address);
    }
    hide IpIndexOf, IsLastOwner;
  }

  /** A failed listing of the servers ends in success with an empty name, whatever the volume. */
  lemma FailedListingIsHidden(hosts: map<string, string>, address: string, volume: Volume, registration: Registration)
    ensures DirectoryName(None, true, Some(hosts), address, volume, registration) == Name([])
    ensures DirectoryName(None, true, None, address, volume, registration) == Failed
  {
  }

  // ----- canonical UUIDs (section 3 of RFC 4122)

  predicate IsDashAt(i: int) { i == 8 || i == 13 || i == 18 || i == 23 }

  predicate IsUuid(id: string) {
    |id| == 36 && forall i :: 0 <= i < 36 ==> (id[i] == '-' <==> IsDashAt(i))
  }

  lemma {:induction false} DigitsSkip(a: string, b: string)
    requires '-' !in a
    ensures Digits(a + b) == a + Digits(b)
  {
    if a == [] {
      assert a + b == b;
    } else {
      assert (a + b)[0] == a[0] && (a + b)[1..] == a[1..] + b;
      assert a[0] in a && "-"[0] == '-';
      assert forall c :: c in a[1..] ==> c in a;
      DigitsSkip(a[1..], b);
    }
  }

  lemma DigitsDash(b: string)
    ensures Digits(['-'] + b) == Digits(b)
  {
    assert (['-'] + b)[1..] == b;
  }

  lemma OneGroup(a: string, b: string)
    requires '-' !in a
    ensures Digits(a + (['-'] + b)) == a + Digits(b)
  {
    DigitsSkip(a, ['-'] + b);
    DigitsDash(b);
  }

  /** A UUID has 32 digits, in five groups. */
  lemma DigitsOfUuid(id: string)
    requires IsUuid(id)
    ensures Digits(id) == id[..8] + (id[9..13] + (id[14..18] + (id[19..23] + id[24..])))
  {
    hide Digits;
    var r4 := id[19..23] + (['-'] + id[24..]);
    var r3 := id[14..18] + (['-'] + r4);
    var r2 := id[9..13] + (['-'] + r3);
    assert id == id[..8] + (['-'] + r2);
    OneGroup(id[..8], r2);
    OneGroup(id[9..13], r3);
    OneGroup(id[14..18], r4);
    OneGroup(id[19..23], id[24..]);
    DigitsSkip(id[24..], []);
    assert id[24..] + [] == id[24..];
    NoDigits();
  }

  lemma NoDigits()
    ensures Digits([]) == []
  {
  }

  /** The position of digit number k in the UUID. */
  function Position(k: nat): nat {
    k + (if k < 8 then 0 else if k < 12 then 1 else if k < 16 then 2 else if k < 20 then 3 else 4)
  }

  lemma DigitAt(id: string, k: nat)
    requires IsUuid(id) && k < 32
    ensures |Digits(id)| == 32 && Digits(id)[k] == id[Position(k)]
  {
    DigitsOfUuid(id);
    hide Digits;
  }

  /** The slices are in range for every UUID. */
  lemma UuidsHaveNames(id: string)
    requires IsUuid(id)
    ensures LioName(id).Some? && KvmName(id).Some?
  {
    DigitAt(id, 0);
  }

  /** LIO names agree exactly when the first 25 digits agree, KVM names exactly when the first 17
      agree. */
  lemma NamesAgreeExactly(a: string, b: string)
    requires IsUuid(a) && IsUuid(b)
    ensures |Digits(a)| == 32 && |Digits(b)| == 32
    ensures LioName(a) == LioName(b) <==> Digits(a)[..25] == Digits(b)[..25]
    ensures KvmName(a) == KvmName(b) <==> Digits(a)[..17] == Digits(b)[..17]
  {
    hide Digits;
    forall k: nat | k < 32
      ensures |Digits(a)| == 32 && |Digits(b)| == 32 && Digits(a)[k] == a[Position(k)] && Digits(b)[k] == b[Position(k)]
    {
      DigitAt(a, k);
      DigitAt(b, k);
    }
    DigitAt(a, 0);
    DigitAt(b, 0);
    SamePrefix(BY_ID + LIO, Digits(a)[..25], Digits(b)[..25]);
    SamePrefix(BY_ID + KVM, a[..20], b[..20]);
    StartsAgree(a, b);
  }

  lemma SamePrefix(prefix: string, x: string, y: string)
    ensures prefix + x == prefix + y <==> x == y
  {
    assert (prefix + x)[|prefix|..] == x && (prefix + y)[|prefix|..] == y;
  }

  /** The digit at a position that holds no dash. */
  function DigitIndex(i: nat): nat
    requires i < 20 && !IsDashAt(i)
    ensures Position(DigitIndex(i)) == i && DigitIndex(i) < 17
  {
    if i < 8 then i else if i < 13 then i - 1 else if i < 18 then i - 2 else i - 3
  }

  lemma StartsAgree(a: string, b: string)
    requires IsUuid(a) && IsUuid(b)
    ensures |Digits(a)| == 32 && |Digits(b)| == 32
    ensures a[..20] == b[..20] <==> Digits(a)[..17] == Digits(b)[..17]
  {
    hide Digits;
    DigitAt(a, 0);
    DigitAt(b, 0);
    if Digits(a)[..17] == Digits(b)[..17] {
      forall i | 0 <= i < 20 ensures a[i] == b[i] {
        if !IsDashAt(i) {
          var k := DigitIndex(i);
          DigitAt(a, k);
          DigitAt(b, k);
          assert Digits(a)[..17][k] == Digits(b)[..17][k];
        }
      }
    }
    if a[..20] == b[..20] {
      forall k: nat | k < 17 ensures Digits(a)[k] == Digits(b)[k] {
        DigitAt(a, k);
        DigitAt(b, k);
        assert a[..20][Position(k)] == b[..20][Position(k)];
      }
    }
  }

  /** So volumes that LIO cannot tell apart KVM cannot tell apart either. */
  lemma LioDistinguishesMore(a: string, b: string)
    requires IsUuid(a) && IsUuid(b) && LioName(a) == LioName(b)
    ensures KvmName(a) == KvmName(b)
  {
    NamesAgreeExactly(a, b);
    StartsAgree(a, b);
    assert Digits(a)[..25][..17] == Digits(a)[..17] && Digits(b)[..25][..17] == Digits(b)[..17];
  }

  /** The characters that tell the schemes apart: the first and the sixth after the directory. */
  lemma SchemeMarks(rest: string)
    ensures var n := |BY_ID|;
            && (BY_ID + KVM + rest)[n] == 's' && (BY_ID + KVM + rest)[n + 5] == '0'
            && (BY_ID + LIO + rest)[n] == 'w' && (BY_ID + VIOS + rest)[n] == 'w'
            && (BY_ID + XIV + rest)[n] == 's' && (BY_ID + XIV + rest)[n + 5] == '2'
  {
    assert KVM[0] == 's' && KVM[5] == '0' && XIV[0] == 's' && XIV[5] == '2' && LIO[0] == 'w' && VIOS[0] == 'w';
  }

  lemma LioContinuesVios(digits: string)
    ensures BY_ID + LIO + digits == (BY_ID + VIOS) + ("6001405" + digits)
  {
    assert LIO == VIOS + "6001405";
  }

  /** Names of different schemes never coincide, but for one case: a VIOS name equals an LIO name exactly
      when the lower-cased WWN is the LIO vendor prefix followed by the digits of the volume. */
  lemma SchemesAreApart(id: string, other: string, wwn: string, wwn2: string)
    requires IsUuid(id) && IsUuid(other) && wwn2 != []
    ensures LioName(id).Some? && KvmName(id).Some? && LioName(other).Some? && |Digits(id)| == 32
    ensures KvmName(id) != LioName(other) && KvmName(id).value != ViosName(wwn) && KvmName(id).value != XivName(wwn2)
    ensures LioName(id).value != XivName(wwn2) && ViosName(wwn) != XivName(wwn2)
    ensures ViosName(wwn) == LioName(id).value <==> ToLower(wwn) == "6001405" + Digits(id)[..25]
  {
    hide Digits, ToLower;
    DigitAt(id, 0);
    DigitAt(other, 0);
    hide IsUuid;
    var low, d := ToLower(wwn), Digits(id)[..25];
    SchemeMarks(id[..20]);
    SchemeMarks(d);
    SchemeMarks(Digits(other)[..25]);
    SchemeMarks(low);
    SchemeMarks(ToLower(wwn2));
    LioContinuesVios(d);
    SamePrefix(BY_ID + VIOS, low, "6001405" + d);
  }

  /** The lower-cased WWN begins like an LIO name. */
  predicate LooksLikeLio(wwn: string) {
    "6001405" <= ToLower(wwn)
  }

  /** So the path tells the scheme: for a volume with a UUID and a WWN that does not look like LIO, each
      of the four names is answered exactly for its kind of host and storage. */
  lemma NameTellsScheme(hypType: string, volume: Volume, registration: Registration)
    requires IsUuid(volume.id) && volume.wwn != [] && !LooksLikeLio(volume.wwn)
    ensures LioName(volume.id).Some? && KvmName(volume.id).Some?
    ensures var answer := NameOnHost(hypType, volume, registration);
            && (answer == Name(KvmName(volume.id).value) <==> IsKvm(hypType))
            && (answer == Name(LioName(volume.id).value) <==> IsPowerVm(hypType) && registration == Registered("gpfs"))
            && (answer == Name(XivName(volume.wwn)) <==> IsPowerVm(hypType) && registration == Registered("xiv"))
            && (answer == Name(ViosName(volume.wwn)) <==>
                  IsPowerVm(hypType) && !registration.LookupFailed?
                  && registration != Registered("gpfs") && registration != Registered("xiv"))
  {
    SchemesAreApart(volume.id, volume.id, volume.wwn, volume.wwn);
    NamesAreNotEmpty(volume.id, volume.wwn);
    KindsAreApart(hypType);
    hide LioName, KvmName, ViosName, XivName, IsKvm, IsPowerVm, IsUuid, ToLower;
  }

  lemma NamesAreNotEmpty(id: string, wwn: string)
    ensures KvmName(id) != Some([]) && LioName(id) != Some([]) && XivName(wwn) != [] && ViosName(wwn) != []
  {
    assert |BY_ID| > 0;
  }

  lemma KindsAreApart(hypType: string)
    ensures !(IsKvm(hypType) && IsPowerVm(hypType))
  {
    assert "libvirt"[0] == 'l' && "kvm"[0] == 'k' && "novalink-kvm"[0] == 'n' && "phyp"[0] == 'p' && "powervm"[0] == 'p';
  }
}
