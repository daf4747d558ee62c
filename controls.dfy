/**
 * Input flags: which logical keys are held, and the shoot key's
 * edge-triggered "press".
 */
module Controls {

  datatype Button = Button(hold: bool, press: bool)

  datatype Input = Input(left: Button, right: Button, shoot: Button)

  /** The key codes the game reacts to; every other key is `OtherKey`. */
  datatype Key = A | LeftArrow | D | RightArrow | Space | Z | OtherKey

  /** Horizontal steering: +1 right, -1 left, 0 for both or neither. */
  function Steer(input: Input): (r: int)
    ensures -1 <= r <= 1
    ensures r == 1 <==> input.right.hold && !input.left.hold
    ensures r == -1 <==> input.left.hold && !input.right.hold
  {
    (if input.right.hold then 1 else 0) - (if input.left.hold then 1 else 0)
  }
}
