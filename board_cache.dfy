/** The board's cache: legal-move lists per (square, colour), a check flag per
    colour and the last hash. Each store is a field that the setters replace. */
module BoardCaches {
  import opened Options
  import opened Pieces
  import opened Positions
  import opened Zobrist

  class BoardCache {
    var legalMoves: map<(Position, Color), seq<Position>>
    var checkStatus: map<Color, bool>
    var currentHash: Option<Word>

    /** A cache that knows nothing. */
    constructor ()
      ensures legalMoves == map[] && checkStatus == map[] && currentHash == Option.None
    {
      legalMoves := map[];
      checkStatus := map[];
      currentHash := Option.None;
    }

    /** A copy with the same contents. */
    constructor Clone(other: BoardCache)
      ensures legalMoves == other.legalMoves && checkStatus == other.checkStatus && currentHash == other.currentHash
    {
      legalMoves := other.legalMoves;
      checkStatus := other.checkStatus;
      currentHash := other.currentHash;
    }

    /** Remember the legal targets of the piece of colour `color` on `from`. */
    method CacheLegalMoves(from: Position, color: Color, moves: seq<Position>)
      modifies this
      ensures GetCachedLegalMoves(from, color) == Some(moves)
      ensures forall key | key in old(legalMoves) && key != (from, color) ::
        key in legalMoves && legalMoves[key] == old(legalMoves)[key]
      ensures legalMoves.Keys == old(legalMoves).Keys + {(from, color)}
      ensures checkStatus == old(checkStatus) && currentHash == old(currentHash)
    {
      legalMoves := legalMoves[(from, color) := moves];
    }

    /** The remembered targets for (from, color), if any. */
    function GetCachedLegalMoves(from: Position, color: Color): (r: Option<seq<Position>>)
      reads this
      ensures r.Some? <==> (from, color) in legalMoves
      ensures r.Some? ==> r.value == legalMoves[(from, color)]
    {
      if (from, color) in legalMoves then Some(legalMoves[(from, color)]) else Option.None
    }

    /** Remember whether colour `color` is in check. */
    method CacheCheckStatus(color: Color, status: bool)
      modifies this
      ensures GetCachedCheckStatus(color) == Some(status)
      ensures forall c | c != color :: GetCachedCheckStatus(c) == old(GetCachedCheckStatus(c))
      ensures legalMoves == old(legalMoves) && currentHash == old(currentHash)
    {
      checkStatus := checkStatus[color := status];
    }

    /** The remembered check flag of `color`, if any. */
    function GetCachedCheckStatus(color: Color): (r: Option<bool>)
      reads this
      ensures r.Some? <==> color in checkStatus
      ensures r.Some? ==> r.value == checkStatus[color]
    {
      if color in checkStatus then Some(checkStatus[color]) else Option.None
    }

    /** Remember a hash value. */
    method CacheHash(hash: Word)
      modifies this
      ensures GetCachedHash() == Some(hash)
      ensures legalMoves == old(legalMoves) && checkStatus == old(checkStatus)
    {
      currentHash := Some(hash);
    }

    /** The remembered hash, if any. */
    function GetCachedHash(): (r: Option<Word>)
      reads this
      ensures r.Some? <==> currentHash.Some?
      ensures r.Some? ==> r.value == currentHash.value
    {
      currentHash
    }

    /** Forget everything. */
    method Clear()
      modifies this
      ensures legalMoves == map[] && checkStatus == map[] && currentHash == Option.None
    {
      legalMoves := map[];
      checkStatus := map[];
      currentHash := Option.None;
    }
  }
}
