/** Game and display constants the viewport size is derived from. */
module Constants {

  /** Side of one Factorio tile, in screen pixels. */
  const TILE_SIZE_PX: nat := 32

  /** Horizontal and vertical resolution of the recorded timelapse, in pixels. */
  const RESOLUTION_X: nat := 3840
  const RESOLUTION_Y: nat := 2160

}
