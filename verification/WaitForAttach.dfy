/** `waitForAttach` as one process runs it (cmd/flexplugin/main.go): the loop that tries to take the
    lock and the loop that scans until the device shows up. What the rest of the system does shows
    only in the answers the process gets. */
module WaitForAttach {
  import ScanLock

  /** What the process sees after a scan: no file, or a file with its mode and the device that its
      path leads to (empty when the link cannot be resolved). */
  datatype Look = Absent | Present(mode: nat, device: string)

  datatype Response = Success(device: string) | Failed

  /** The scan that ends the loop, counted from one. */
  predicate EndsAtScan(look: nat -> Look, n: nat) {
    && 1 <= n <= ScanLock.MAX_SCANS
    && (forall i :: 0 <= i < n - 1 ==> look(i).Absent?)
    && (n < ScanLock.MAX_SCANS ==> look(n - 1).Present?)
  }

  /** The mode test of the source compares with zero: only a file without any mode bit ends the
      search without a device. */
  function Verdict(look: Look): Response {
    if look.Present? && look.mode != 0 && look.device != [] then Success(look.device) else Failed
  }

  /** The first of the 24 scans that shows a file. */
  ghost predicate IsFirstSight(look: nat -> Look, i: nat) {
    i < 24 && look(i).Present? && forall j: nat :: j < i ==> look(j).Absent?
  }

  /** `refused(i)` tells whether try number i fails, `look(i)` what scan number i shows. */
  method WaitForAttach(refused: nat -> bool, look: nat -> Look)
    returns (response: Response, locked: bool, fails: nat, scans: nat, slept: int)
    ensures forall i: nat :: i < fails ==> refused(i)
    ensures locked <==> fails < 24
    ensures fails <= 24 && (locked ==> !refused(fails))
    ensures EndsAtScan(look, scans)
    ensures forall i: nat :: IsFirstSight(look, i) ==> scans == i + 1
    ensures (forall i: nat :: !IsFirstSight(look, i)) ==> scans == 24
    ensures forall d :: response == Success(d) <==>
              exists i: nat :: IsFirstSight(look, i) && look(i).mode > 0 && look(i).device == d && d != ""
    ensures slept == (5 * fails + 5 * scans) * 1_000_000_000
    ensures slept <= 240 * 1_000_000_000
  {
    slept, fails, locked := 0, 0, false;
    hide IsFirstSight;
    while fails < ScanLock.MAX_TRIES
      invariant 0 <= fails <= ScanLock.MAX_TRIES && !locked
      invariant forall i: nat :: i < fails ==> refused(i)
      invariant slept == fails * ScanLock.RETRY_SLEEP
    {
      if !refused(fails) {
        locked := true;
        break;
      }
      slept := slept + ScanLock.RETRY_SLEEP;
      fails := fails + 1;
    }
    ghost var waited := slept;
    response, scans := Failed, 0;
    while scans < ScanLock.MAX_SCANS
      invariant 0 <= scans <= ScanLock.MAX_SCANS
      invariant forall i :: 0 <= i < scans ==> look(i).Absent?
      invariant slept == waited + scans * ScanLock.SCAN_SLEEP
      invariant response == Failed
    {
      slept := slept + ScanLock.SCAN_SLEEP;
      var seen := look(scans);
      scans := scans + 1;
      if seen.Present? {
        if seen.mode != 0 && seen.device != [] {
          response := Success(seen.device);
        }
        break;
      }
    }
    ResponseIsExact(look, scans);
  }

  /** The scan that ends the loop is the first sight, or the last scan if nothing is ever seen. */
  lemma ResponseIsExact(look: nat -> Look, scans: nat)
    requires EndsAtScan(look, scans)
    ensures forall i: nat :: IsFirstSight(look, i) ==> scans == i + 1
    ensures (forall i: nat :: !IsFirstSight(look, i)) ==> scans == 24
    ensures forall d :: Verdict(look(scans - 1)) == Success(d) <==>
              exists i: nat :: IsFirstSight(look, i) && look(i).mode > 0 && look(i).device == d && d != ""
  {
    var last := look(scans - 1);
    forall i: nat | IsFirstSight(look, i) ensures scans == i + 1 {
      SightEndsTheLoop(look, scans, i);
    }
    if last.Present? {
      assert IsFirstSight(look, scans - 1);
    }
  }

  lemma SightEndsTheLoop(look: nat -> Look, scans: nat, i: nat)
    requires EndsAtScan(look, scans) && IsFirstSight(look, i)
    ensures scans == i + 1
  {
    var seen, last := look(i), look(scans - 1);
  }

  /** The number of scans is determined by what the scans show, so the response is as well. */
  lemma ScansAreDetermined(look: nat -> Look, m: nat, n: nat)
    requires EndsAtScan(look, m) && EndsAtScan(look, n)
    ensures m == n
  {
    var first, second := look(m - 1), look(n - 1);
  }
}
