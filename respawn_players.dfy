/**
 * Respawning players: collect the chunks players may spawn in and fail when
 * the level has none.  Nothing is changed; the rest only logs.
 */
module RespawnPlayers {
  import opened Base
  import opened AppLevels
  import Errors

  /** The indices of the spawnable chunks, in ascending order. */
  function SpawnChunks(chunks: seq<Chunk>): (r: seq<nat>)
    ensures forall k :: 0 <= k < |r| ==> r[k] < |chunks| && chunks[r[k]].isSpawnable
    ensures forall i :: 0 <= i < |chunks| && chunks[i].isSpawnable ==> i in r
    ensures forall a, b :: 0 <= a < b < |r| ==> r[a] < r[b]
  {
    if |chunks| == 0 then []
    else
      var front := SpawnChunks(chunks[..|chunks| - 1]);
      if chunks[|chunks| - 1].isSpawnable then front + [|chunks| - 1] else front
  }

  /** `App::respawn_players`: an error exactly when no chunk is spawnable. */
  function RespawnPlayers(level: Level): (r: Result<(), Errors.Error>)
    ensures r.Err? <==> forall i :: 0 <= i < |level.chunks| ==> !level.chunks[i].isSpawnable
    ensures r.Err? ==> r.error == Errors.MissingSpawnChunk
  {
    var spawnChunks := SpawnChunks(level.chunks);
    if |spawnChunks| == 0 then Err(Errors.MissingSpawnChunk)
    else
      assert level.chunks[spawnChunks[0]].isSpawnable;
      Ok(())
  }
}
