/** The buses that only know presence: Thunderbolt, SD card and PCI
    (crates/plugkill-core/src/thunderbolt.rs, sdcard.rs and pci.rs). */
module DeviceSets {
  import opened Wrappers
  import opened Selectors

  datatype Change = Added(device: string) | Removed(device: string)

  ghost predicate Accepts(current: set<string>, baseline: set<string>, whitelist: set<string>) {
    current <= baseline + whitelist && baseline <= current
  }

  /** A report the comparison may give; an addition goes before a removal. */
  ghost predicate IsChange(current: set<string>, baseline: set<string>, whitelist: set<string>, c: Change) {
    match c
    case Added(device) => device in current && device !in baseline && device !in whitelist
    case Removed(device) => current <= baseline + whitelist && device in baseline && device !in current
  }

  /** Thunderbolt and SD card; PCI compares with an empty whitelist. */
  method DetectChanges(current: set<string>, baseline: set<string>, whitelist: set<string>)
    returns (change: Option<Change>)
    ensures change.None? <==> Accepts(current, baseline, whitelist)
    ensures change.Some? ==> IsChange(current, baseline, whitelist, change.value)
  {
    var left := current;
    while left != {}
      invariant left <= current
      invariant forall d :: d in current && d !in left ==> d in baseline + whitelist
      decreases left
    {
      var device :| device in left;
      if device !in baseline && device !in whitelist {
        return Some(Added(device));
      }
      left := left - {device};
    }
    left := baseline;
    while left != {}
      invariant left <= baseline
      invariant forall d :: d in baseline && d !in left ==> d in current
      decreases left
    {
      var device :| device in left;
      if device !in current {
        return Some(Removed(device));
      }
      left := left - {device};
    }
    change := None;
  }

  /** Taking out a device of the baseline is noticed, and so is putting in one
      that is in neither baseline nor whitelist; nothing else is. */
  lemma LossAndGainAreNoticed(current: set<string>, baseline: set<string>, whitelist: set<string>)
    ensures !Accepts(current, baseline, whitelist) <==>
            || (exists d :: d in baseline && d !in current)
            || (exists d :: d in current && d !in baseline && d !in whitelist)
  {
  }

  // ----- allowances on a whitelisted bus -----------------------------------------------

  /** Which devices of one bus are allowed, by the reference that names them. */
  function AllowedOn(allowed: set<DeviceRef>, bus: string -> DeviceRef, devices: set<string>): set<string> {
    set d | d in devices && bus(d) in allowed
  }

  /** Every allowed device is dropped from a baseline. */
  function Stripped(baseline: set<string>, allowed: set<DeviceRef>, bus: string -> DeviceRef): set<string> {
    set d | d in baseline && bus(d) !in allowed
  }

  ghost predicate IsWhitelist(list: set<string>, listed: set<string>, allowed: set<DeviceRef>,
                              bus: string -> DeviceRef) {
    forall d :: d in list <==> d in listed || bus(d) in allowed
  }

  lemma FreshCaptureAccepts(hardware: set<string>, listed: set<string>, allowed: set<DeviceRef>,
                            bus: string -> DeviceRef, list: set<string>)
    requires IsWhitelist(list, listed, allowed, bus)
    ensures Accepts(hardware, Stripped(hardware, allowed, bus), list)
  {
  }

  /** Revoking the allowance of an attached device is noticed unless the
      configuration lists it, and the report can only name that device. */
  lemma RevocationIsNoticed(hardware: set<string>, listed: set<string>, allowed: set<DeviceRef>,
                            bus: string -> DeviceRef, device: string, list: set<string>)
    requires device in hardware && bus(device) in allowed
    requires forall d, e :: bus(d) == bus(e) ==> d == e
    requires IsWhitelist(list, listed, allowed - {bus(device)}, bus)
    ensures var baseline := Stripped(hardware, allowed, bus);
            && (Accepts(hardware, baseline, list) <==> device in listed)
            && forall c :: IsChange(hardware, baseline, list, c) ==> c == Added(device)
  {
  }

  /** A reload strips a standing baseline too. It never turns an accepted
      snapshot into a violation, because what it strips is whitelisted; and it
      accepts another one only where an allowed device is what was missing. */
  lemma StrippingAStandingBaseline(current: set<string>, baseline: set<string>, listed: set<string>,
                                   allowed: set<DeviceRef>, bus: string -> DeviceRef, list: set<string>)
    requires IsWhitelist(list, listed, allowed, bus)
    ensures Accepts(current, Stripped(baseline, allowed, bus), list)
            <==> current <= baseline + list && forall d :: d in baseline - current ==> bus(d) in allowed
    ensures Accepts(current, baseline, list) ==> Accepts(current, Stripped(baseline, allowed, bus), list)
  {
  }

  // ----- PCI: filtered where it is enumerated ---------------------------------------------

  /** `haystack.contains(needle)`. */
  predicate Contains(haystack: string, needle: string) {
    exists i: nat {:trigger StartsAt(haystack, needle, i)} :: i <= |haystack| && StartsAt(haystack, needle, i)
  }

  predicate StartsAt(haystack: string, needle: string, i: nat) {
    i <= |haystack| && needle <= haystack[i..]
  }

  /** A text contains what stands in its middle, and nothing longer than itself. */
  lemma ContainsWhatItHolds(before: string, needle: string, after: string, haystack: string)
    ensures Contains(before + needle + after, needle)
    ensures Contains(haystack, needle) <==>
            exists i: nat, j {:trigger haystack[i..j]} ::
              i <= j == i + |needle| <= |haystack| && haystack[i..j] == needle
  {
    var whole := before + needle + after;
    assert whole[|before|..] == needle + after;
    assert StartsAt(whole, needle, |before|);
    if Contains(haystack, needle) {
      var i: nat :| i <= |haystack| && StartsAt(haystack, needle, i);
      assert haystack[i..i + |needle|] == haystack[i..][..|needle|];
    }
    if i: nat, j :| i <= j == i + |needle| <= |haystack| && haystack[i..j] == needle {
      assert haystack[i..][..|needle|] == haystack[i..j];
      assert StartsAt(haystack, needle, i);
    }
  }

  predicate Ignored(selector: string, ignore: set<string>) {
    exists token :: token in ignore && token != "" && Contains(selector, token)
  }

  function Enumerated(hardware: set<string>, ignore: set<string>): set<string> {
    set s | s in hardware && !Ignored(s, ignore)
  }

  /** The configured tokens and every allowed selector. */
  function PciIgnore(configured: set<string>, allowed: set<DeviceRef>): set<string> {
    configured + set a | a in allowed && a.Pci? :: a.selector
  }

  /** Enumeration drops exactly the selectors with a configured token in them, or
      with the selector of an allowed card in them. */
  lemma EnumeratedMeans(hardware: set<string>, configured: set<string>, allowed: set<DeviceRef>, s: string)
    ensures s in Enumerated(hardware, PciIgnore(configured, allowed)) <==>
            && s in hardware
            && (forall token :: token in configured && token != "" ==> !Contains(s, token))
            && (forall card: string :: DeviceRef.Pci(card) in allowed && card != "" ==> !Contains(s, card))
  {
    var ignore := PciIgnore(configured, allowed);
    forall card: string | DeviceRef.Pci(card) in allowed ensures card in ignore {
      assert DeviceRef.Pci(card).selector in ignore;
    }
    if s in hardware && Ignored(s, ignore) {
      var token :| token in ignore && token != "" && Contains(s, token);
      assert token in configured || DeviceRef.Pci(token) in allowed;
    }
  }

  /** Allowances filter the live side only, so with the hardware of the baseline
      still in place a new grant is silent exactly when no selector of the
      baseline contains it; otherwise the device reads as removed. */
  lemma PciGrantIsSilentIff(hardware: set<string>, ignore: set<string>, granted: string)
    requires granted != ""
    ensures var baseline := Enumerated(hardware, ignore);
            var current := Enumerated(hardware, ignore + {granted});
            && (Accepts(current, baseline, {}) <==> forall s :: s in baseline ==> !Contains(s, granted))
            && forall c :: IsChange(current, baseline, {}, c) ==> c.Removed? && Contains(c.device, granted)
  {
  }

  /** Granting a card that the baseline already holds reports its removal, with
      the card still in its slot. */
  lemma AGrantCanReadAsARemoval()
    ensures var card := "0000:01:00.0";
            var baseline, current := Enumerated({card}, {}), Enumerated({card}, {card});
            !Accepts(current, baseline, {}) && IsChange(current, baseline, {}, Removed(card))
  {
    var card := "0000:01:00.0";
    assert StartsAt(card, card, 0);
    assert Contains(card, card);
    PciGrantIsSilentIff({card}, {}, card);
    assert {} + {card} == {card};
    assert card in Enumerated({card}, {});
  }

  /** After a capture that saw the grant, revoking it reports exactly the
      attached devices that only the grant was hiding. */
  lemma PciRevocationIsNoticed(hardware: set<string>, ignore: set<string>, granted: string)
    requires granted != ""
    ensures var baseline := Enumerated(hardware, ignore + {granted});
            var current := Enumerated(hardware, ignore);
            && (Accepts(current, baseline, {}) <==> forall s :: s in current ==> !Contains(s, granted))
            && forall s :: IsChange(current, baseline, {}, Added(s)) <==> s in current && Contains(s, granted)
  {
  }
}
