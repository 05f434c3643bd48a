/** The parameters that handlers pass to every transfer strategy. */
module TransferParams {

  /** The sizes in `TransferParams`, with its convention that a range has both ends given. */
  datatype Params = Params(fileSize: int, rangeStart: int, rangeEnd: int)
  {
    predicate Ranged() { rangeStart >= 0 && rangeEnd >= 0 }

    function Start(): nat { if Ranged() then rangeStart else 0 }

    function Length(): int { if Ranged() then rangeEnd - rangeStart + 1 else fileSize }
  }
}
