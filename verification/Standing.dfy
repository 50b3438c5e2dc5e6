/** What the daemon compares the machine with: one baseline per bus
    (crates/plugkill/src/main.rs, `Baselines`). */
module Standing {
  import opened Wrappers
  import Usb
  import Displays

  datatype PowerState = Ac | Battery | Unknown
  datatype LidState = Open | Closed | Unreadable
  datatype LinkState = Up | Down | Unclear

  type Links = map<string, LinkState>

  /** Every baseline as a value; a bus without one is not being checked. */
  datatype Snapshots = Snapshots(
    usb: Option<Usb.Counts>,
    thunderbolt: Option<set<string>>,
    sdcard: Option<set<string>>,
    power: Option<PowerState>,
    network: Option<Links>,
    lid: Option<LidState>,
    pci: Option<set<string>>,
    display: Option<Displays.Snapshot>
  )

  class Baselines {
    var usb: Option<Usb.Counts>
    var thunderbolt: Option<set<string>>
    var sdcard: Option<set<string>>
    var power: Option<PowerState>
    var network: Option<Links>
    var lid: Option<LidState>
    var pci: Option<set<string>>
    var display: Option<Displays.Snapshot>

    ghost function View(): Snapshots
      reads this
    {
      Snapshots(usb, thunderbolt, sdcard, power, network, lid, pci, display)
    }

    constructor (s: Snapshots)
      ensures View() == s
    {
      usb, thunderbolt, sdcard, power := s.usb, s.thunderbolt, s.sdcard, s.power;
      network, lid, pci, display := s.network, s.lid, s.pci, s.display;
    }
  }
}
