/** From a kind of address and a command to the frames on the bus. */
module Adapter {
  import opened Addressing

  datatype AddressType = Short | Group | Broadcast | Special

  const ADD_TO_GROUP_0: nat := 0x60
  const REMOVE_FROM_GROUP_0: nat := 0x70

  /** `0x40 | addr` on a byte. */
  function WithGroupBit(addr: nat): nat {
    if HasBit(addr, 0x40) then addr else addr + 0x40
  }

  function AddressByte(t: AddressType, addr: nat): nat {
    match t
    case Short => addr
    case Group => WithGroupBit(addr)
    case Broadcast => 0x7F
    case Special => addr
  }

  /** Direct level control: one frame with the selector bit clear; special addresses are refused. */
  function DacpFrames(t: AddressType, addr: nat, level: nat): seq<Frame> {
    if t != Special && CheckYaaaaaa(AddressByte(t, addr)) then [[2 * AddressByte(t, addr) % 256, level]] else []
  }

  /** An indirect command, twice if asked for. */
  function CommandFrames(t: AddressType, addr: nat, command: nat, sendTwice: bool): seq<Frame> {
    var cmd := command + (if sendTwice then 0x200 else 0) + (if t == Special then 0x100 else 0);
    match CmdFrame(cmd, AddressByte(t, addr))
    case None => []
    case Some(f) => if SentTwice(cmd) then [f, f] else [f]
  }

  function GroupCommand(short: nat, group: nat, assign: bool): seq<Frame> {
    if group >= 16 then []
    else CommandFrames(Short, short, (if assign then ADD_TO_GROUP_0 else REMOVE_FROM_GROUP_0) + group, true)
  }

  /** Adding to and removing from a group is the same frame twice, addressed to the one gear. */
  lemma GroupCommandIs(short: nat, group: nat, assign: bool)
    requires short < 64 && group < 16
    ensures var f := [2 * short + 1, (if assign then 0x60 else 0x70) + group];
            GroupCommand(short, group, assign) == [f, f]
  {
  }

  /** What is refused: levels for special addresses, groups from 16 on, and address bytes that name nobody. */
  lemma RefusedFrames(addr: nat, level: nat, cmd: nat, twice: bool, group: nat, assign: bool)
    requires addr < 256 && cmd < 256
    ensures DacpFrames(Special, addr, level) == []
    ensures group >= 16 ==> GroupCommand(addr, group, assign) == []
    ensures DacpFrames(Short, addr, level) == [] <==> !(addr < 80 || addr == 127 || addr == 255)
    ensures CommandFrames(Short, addr, cmd, twice) == [] <==> !(addr < 80 || addr == 127 || addr == 255)
  {
  }
}
