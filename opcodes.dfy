/** The opcode name tables of opcodes.c: every game, checksum and script
  * message opcode listed in opcodes.h has one fixed display name, every
  * other value has none. */
module Opcodes {
  import opened Bytes

  /** bc_opcode_name: None stands for the NULL of the default case. */
  function OpcodeName(opcode: int): Option<string>
  {
    match opcode
    case 0x00 => Some("Settings")
    case 0x01 => Some("GameInit")
    case 0x02 => Some("ObjCreate")
    case 0x03 => Some("ObjCreateTeam")
    case 0x04 => Some("BootPlayer")
    case 0x06 => Some("PythonEvent")
    case 0x07 => Some("StartFiring")
    case 0x08 => Some("StopFiring")
    case 0x09 => Some("StopFiringAt")
    case 0x0A => Some("SubsysStatus")
    case 0x0B => Some("AddToRepairList")
    case 0x0C => Some("ClientEvent")
    case 0x0D => Some("PythonEvent2")
    case 0x0E => Some("StartCloak")
    case 0x0F => Some("StopCloak")
    case 0x10 => Some("StartWarp")
    case 0x11 => Some("RepairPriority")
    case 0x12 => Some("SetPhaserLevel")
    case 0x13 => Some("HostMsg")
    case 0x14 => Some("DestroyObj")
    case 0x15 => Some("CollisionEffect")
    case 0x16 => Some("UISettings")
    case 0x17 => Some("DeletePlayerUI")
    case 0x18 => Some("DeletePlayerAnim")
    case 0x19 => Some("TorpedoFire")
    case 0x1A => Some("BeamFire")
    case 0x1B => Some("TorpTypeChange")
    case 0x1C => Some("StateUpdate")
    case 0x1D => Some("ObjNotFound")
    case 0x1E => Some("RequestObj")
    case 0x1F => Some("EnterSet")
    case 0x29 => Some("Explosion")
    case 0x2A => Some("NewPlayerInGame")
    case 0x20 => Some("ChecksumReq")
    case 0x21 => Some("ChecksumResp")
    case 0x22 => Some("VersionMismatch")
    case 0x23 => Some("SysChecksumFail")
    case 0x25 => Some("FileTransfer")
    case 0x27 => Some("FileTransferACK")
    case 0x28 => Some("Unknown_28")
    case 0x2C => Some("ChatMessage")
    case 0x2D => Some("TeamChatMessage")
    case 0x35 => Some("MissionInit")
    case 0x36 => Some("ScoreChange")
    case 0x37 => Some("Score")
    case 0x38 => Some("EndGame")
    case 0x39 => Some("RestartGame")
    case 0x3F => Some("ScoreInit")
    case 0x40 => Some("TeamScore")
    case 0x41 => Some("TeamMessage")
    case _ => None
  }

  /** The opcodes listed in opcodes.h, as an independent reference: the
    * game and checksum range 0x00..0x2D without its four gaps, and the two
    * script-message bands. */
  predicate Listed(opcode: int)
  {
    || (0x00 <= opcode <= 0x2D && opcode != 0x05 && opcode != 0x24 && opcode != 0x26 && opcode != 0x2B)
    || 0x35 <= opcode <= 0x39
    || 0x3F <= opcode <= 0x41
  }

  /** A fingerprint of a name: its length, first two characters and last
    * character. The listed names all have different fingerprints. */
  function Fingerprint(name: string): int
  {
    if |name| < 2 then 0
    else |name| * 0x100_0000 + name[0] as int * 0x1_0000 + name[1] as int * 0x100 + name[|name| - 1] as int
  }

  /** The reverse lookup, from a listed name's fingerprint to its opcode. */
  function OpcodeOfFingerprint(f: int): Option<int>
  {
    match f
    case 0x8536573 => Some(0x00)  // Settings
    case 0x8476174 => Some(0x01)  // GameInit
    case 0x94F6265 => Some(0x02)  // ObjCreate
    case 0xD4F626D => Some(0x03)  // ObjCreateTeam
    case 0xA426F72 => Some(0x04)  // BootPlayer
    case 0xB507974 => Some(0x06)  // PythonEvent
    case 0xB537467 => Some(0x07)  // StartFiring
    case 0xA537467 => Some(0x08)  // StopFiring
    case 0xC537474 => Some(0x09)  // StopFiringAt
    case 0xC537573 => Some(0x0A)  // SubsysStatus
    case 0xF416474 => Some(0x0B)  // AddToRepairList
    case 0xB436C74 => Some(0x0C)  // ClientEvent
    case 0xC507932 => Some(0x0D)  // PythonEvent2
    case 0xA53746B => Some(0x0E)  // StartCloak
    case 0x953746B => Some(0x0F)  // StopCloak
    case 0x9537470 => Some(0x10)  // StartWarp
    case 0xE526579 => Some(0x11)  // RepairPriority
    case 0xE53656C => Some(0x12)  // SetPhaserLevel
    case 0x7486F67 => Some(0x13)  // HostMsg
    case 0xA44656A => Some(0x14)  // DestroyObj
    case 0xF436F74 => Some(0x15)  // CollisionEffect
    case 0xA554973 => Some(0x16)  // UISettings
    case 0xE446549 => Some(0x17)  // DeletePlayerUI
    case 0x1044656D => Some(0x18)  // DeletePlayerAnim
    case 0xB546F65 => Some(0x19)  // TorpedoFire
    case 0x8426565 => Some(0x1A)  // BeamFire
    case 0xE546F65 => Some(0x1B)  // TorpTypeChange
    case 0xB537465 => Some(0x1C)  // StateUpdate
    case 0xB4F6264 => Some(0x1D)  // ObjNotFound
    case 0xA52656A => Some(0x1E)  // RequestObj
    case 0x8456E74 => Some(0x1F)  // EnterSet
    case 0x945786E => Some(0x29)  // Explosion
    case 0xF4E6565 => Some(0x2A)  // NewPlayerInGame
    case 0xB436871 => Some(0x20)  // ChecksumReq
    case 0xC436870 => Some(0x21)  // ChecksumResp
    case 0xF566568 => Some(0x22)  // VersionMismatch
    case 0xF53796C => Some(0x23)  // SysChecksumFail
    case 0xC466972 => Some(0x25)  // FileTransfer
    case 0xF46694B => Some(0x27)  // FileTransferACK
    case 0xA556E38 => Some(0x28)  // Unknown_28
    case 0xB436865 => Some(0x2C)  // ChatMessage
    case 0xF546565 => Some(0x2D)  // TeamChatMessage
    case 0xB4D6974 => Some(0x35)  // MissionInit
    case 0xB536365 => Some(0x36)  // ScoreChange
    case 0x5536365 => Some(0x37)  // Score
    case 0x7456E65 => Some(0x38)  // EndGame
    case 0xB526565 => Some(0x39)  // RestartGame
    case 0x9536374 => Some(0x3F)  // ScoreInit
    case 0x9546565 => Some(0x40)  // TeamScore
    case 0xB546565 => Some(0x41)  // TeamMessage
    case _ => None
  }

  /** Exactly the listed opcodes have a name. */
  lemma NamedIffListed(opcode: int)
    ensures OpcodeName(opcode).Some? <==> Listed(opcode)
  {
  }

  /** Every name leads back to its opcode. */
  lemma NameInverse(opcode: int)
    requires OpcodeName(opcode).Some?
    ensures OpcodeOfFingerprint(Fingerprint(OpcodeName(opcode).value)) == Some(opcode)
  {
    if opcode < 0x06 { InverseBand0(opcode); }
    else if opcode < 0x0B { InverseBand1(opcode); }
    else if opcode < 0x10 { InverseBand2(opcode); }
    else if opcode < 0x15 { InverseBand3(opcode); }
    else if opcode < 0x1A { InverseBand4(opcode); }
    else if opcode < 0x1F { InverseBand5(opcode); }
    else if opcode < 0x25 { InverseBand6(opcode); }
    else if opcode < 0x2C { InverseBand7(opcode); }
    else if opcode < 0x38 { InverseBand8(opcode); }
    else { InverseBand9(opcode); }
  }

  /** NameInverse for the five listed opcodes from 0x00 on. */
  lemma InverseBand0(opcode: int)
    requires 0x00 <= opcode < 0x06 && OpcodeName(opcode).Some?
    ensures OpcodeOfFingerprint(Fingerprint(OpcodeName(opcode).value)) == Some(opcode)
  {
  }

  /** NameInverse for the five listed opcodes from 0x06 on. */
  lemma InverseBand1(opcode: int)
    requires 0x06 <= opcode < 0x0B && OpcodeName(opcode).Some?
    ensures OpcodeOfFingerprint(Fingerprint(OpcodeName(opcode).value)) == Some(opcode)
  {
  }

  /** NameInverse for the five listed opcodes from 0x0B on. */
  lemma InverseBand2(opcode: int)
    requires 0x0B <= opcode < 0x10 && OpcodeName(opcode).Some?
    ensures OpcodeOfFingerprint(Fingerprint(OpcodeName(opcode).value)) == Some(opcode)
  {
  }

  /** NameInverse for the five listed opcodes from 0x10 on. */
  lemma InverseBand3(opcode: int)
    requires 0x10 <= opcode < 0x15 && OpcodeName(opcode).Some?
    ensures OpcodeOfFingerprint(Fingerprint(OpcodeName(opcode).value)) == Some(opcode)
  {
  }

  /** NameInverse for the five listed opcodes from 0x15 on. */
  lemma InverseBand4(opcode: int)
    requires 0x15 <= opcode < 0x1A && OpcodeName(opcode).Some?
    ensures OpcodeOfFingerprint(Fingerprint(OpcodeName(opcode).value)) == Some(opcode)
  {
  }

  /** NameInverse for the five listed opcodes from 0x1A on. */
  lemma InverseBand5(opcode: int)
    requires 0x1A <= opcode < 0x1F && OpcodeName(opcode).Some?
    ensures OpcodeOfFingerprint(Fingerprint(OpcodeName(opcode).value)) == Some(opcode)
  {
  }

  /** NameInverse for the five listed opcodes from 0x1F on. */
  lemma InverseBand6(opcode: int)
    requires 0x1F <= opcode < 0x25 && OpcodeName(opcode).Some?
    ensures OpcodeOfFingerprint(Fingerprint(OpcodeName(opcode).value)) == Some(opcode)
  {
  }

  /** NameInverse for the five listed opcodes from 0x25 on. */
  lemma InverseBand7(opcode: int)
    requires 0x25 <= opcode < 0x2C && OpcodeName(opcode).Some?
    ensures OpcodeOfFingerprint(Fingerprint(OpcodeName(opcode).value)) == Some(opcode)
  {
  }

  /** NameInverse for the five listed opcodes from 0x2C on. */
  lemma InverseBand8(opcode: int)
    requires 0x2C <= opcode < 0x38 && OpcodeName(opcode).Some?
    ensures OpcodeOfFingerprint(Fingerprint(OpcodeName(opcode).value)) == Some(opcode)
  {
  }

  /** NameInverse for the five listed opcodes from 0x38 on. */
  lemma InverseBand9(opcode: int)
    requires 0x38 <= opcode && OpcodeName(opcode).Some?
    ensures OpcodeOfFingerprint(Fingerprint(OpcodeName(opcode).value)) == Some(opcode)
  {
  }

  /** No two opcodes share a name. */
  lemma NamesDistinct(a: int, b: int)
    requires OpcodeName(a).Some? && a != b
    ensures OpcodeName(a) != OpcodeName(b)
  {
    NameInverse(a);
    if OpcodeName(b).Some? {
      NameInverse(b);
    }
  }

  /** The names the trace tools rely on. */
  lemma KnownNames()
    ensures OpcodeName(0x19) == Some("TorpedoFire") && OpcodeName(0x1A) == Some("BeamFire")
    ensures OpcodeName(0x1C) == Some("StateUpdate") && OpcodeName(0x29) == Some("Explosion")
    ensures OpcodeName(0x21) == Some("ChecksumResp")
  {
  }

  /** Gaps in the numbering have no name. */
  lemma UnlistedUnnamed()
    ensures OpcodeName(0x05).None? && OpcodeName(0x24).None? && OpcodeName(0x26).None?
    ensures OpcodeName(0x2B).None?
  {
  }

  /** bc_transport_type_name. */
  function TransportTypeName(t: int): Option<string>
  {
    match t
    case 0x00 => Some("Keepalive")
    case 0x01 => Some("ACK")
    case 0x03 => Some("Connect")
    case 0x04 => Some("ConnectData")
    case 0x05 => Some("ConnectACK")
    case 0x06 => Some("Disconnect")
    case 0x32 => Some("Reliable")
    case _ => None
  }

  /** Exactly the seven transport types have a name, and no two share one. */
  lemma TransportNames(t: int, u: int)
    ensures TransportTypeName(t).Some? <==> t in {0x00, 0x01, 0x03, 0x04, 0x05, 0x06, 0x32}
    ensures TransportTypeName(t).Some? && t != u ==> TransportTypeName(t) != TransportTypeName(u)
  {
  }
}
