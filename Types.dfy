/** The record the sampler produces and the composer consumes. */
module Types {

  /** One grid cell: its grid coordinates, its position in the output box and its
      colour as a `#rrggbb` string. */
  datatype DotSample = DotSample(x: real, y: real, color: string, gridX: nat, gridY: nat)
}
