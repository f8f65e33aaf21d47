/** The network player-id domain of player_ids.h: peer slot p is wire id
  * p + 1, game slot g is peer slot g + 1 (slot 0 is the dedicated host), and
  * 0 is the invalid id. */
module PlayerIds {
  import opened Bytes

  /** BC_MAX_PLAYERS. */
  const MaxPlayers := 7

  /** bc_player_id_from_peer_slot. */
  function FromPeerSlot(peerSlot: int): (id: i32)
  {
    if peerSlot < 0 || peerSlot >= MaxPlayers then 0 else peerSlot + 1
  }

  /** bc_player_id_from_game_slot. */
  function FromGameSlot(gameSlot: int): (id: i32)
  {
    FromPeerSlot(gameSlot + 1)
  }

  /** bc_is_valid_player_id. */
  predicate IsValid(id: i32)
  {
    id > 0 && id <= MaxPlayers
  }

  /** A slot yields a valid id exactly when it is a peer slot, and the id
    * gives the slot back. */
  lemma PeerSlotValid(peerSlot: int)
    ensures IsValid(FromPeerSlot(peerSlot)) <==> 0 <= peerSlot < MaxPlayers
    ensures IsValid(FromPeerSlot(peerSlot)) ==> FromPeerSlot(peerSlot) - 1 == peerSlot
    ensures !IsValid(FromPeerSlot(peerSlot)) ==> FromPeerSlot(peerSlot) == 0
  {
  }

  /** Game slots 0..5 are valid and map to ids 2..7; game slot 6 (which
    * would be peer slot 7) and every other value map to 0. */
  lemma GameSlotValid(gameSlot: int)
    ensures IsValid(FromGameSlot(gameSlot)) <==> 0 <= gameSlot + 1 < MaxPlayers
    ensures IsValid(FromGameSlot(gameSlot)) ==> FromGameSlot(gameSlot) == gameSlot + 2
    ensures FromGameSlot(6) == 0
  {
  }

  /** Distinct peer slots never share a valid id. */
  lemma PeerSlotInjective(a: int, b: int)
    requires IsValid(FromPeerSlot(a)) && FromPeerSlot(a) == FromPeerSlot(b)
    ensures a == b
  {
  }
}
