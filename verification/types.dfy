/** The placed-piece record of Part B (`PieceState`). The file declaring it,
    components/game/partB/types.ts, is not part of this model; its fields are
    the ones every core function reads. */
module PartBTypes {
  import opened PartBConstants
  import opened Wrappers

  /** A placed piece: its id, type, rotation, anchor cell and W-block flag. */
  datatype Piece = Piece(
    id: string,
    blockType: BlockType,
    rotation: Rotation,
    anchorRow: int,
    anchorCol: int,
    isWBlock: bool)

  /** `findIndex((p) => p.id === id)`: the first position holding the id, or -1. */
  function FindIndex(pieces: seq<Piece>, id: string): (r: int)
    ensures -1 <= r < |pieces|
    ensures r >= 0 ==> pieces[r].id == id && forall j :: 0 <= j < r ==> pieces[j].id != id
    ensures r == -1 ==> forall j :: 0 <= j < |pieces| ==> pieces[j].id != id
  {
    if pieces == [] then -1
    else if pieces[0].id == id then 0
    else
      var r := FindIndex(pieces[1..], id);
      if r == -1 then -1 else r + 1
  }
}
