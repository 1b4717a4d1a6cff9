/** Small shared types: failure-carrying options, cell positions, orientation labels. */
module Wrappers {

  /** `Some(v)` or `None`; `None` stands for "the Python code raised" or "no value". */
  datatype Option<+T> = None | Some(value: T)

  /** A (row, index) position of a cell record in a table. */
  type Pos = (nat, nat)

  /** The orientation labels of the classifiers: 'top', 'left', 'right', 'bottom', 'not'. */
  datatype Genuine = Top | Left | Right | Bottom | Not

  /**
   * The order of the orientation tests (`get_type_of_genuine`, `check`): the first check that holds
   * names the orientation, and a check that raises (None) before any check holds
   * makes the whole call raise.
   */
  function Decide(top: bool, left: Option<bool>, right: Option<bool>, bottom: Option<bool>): (r: Option<Genuine>)
    ensures r == Some(Top) <==> top
    ensures r == Some(Left) <==> !top && left == Some(true)
    ensures r == Some(Right) <==> !top && left == Some(false) && right == Some(true)
    ensures r == Some(Bottom) <==> !top && left == Some(false) && right == Some(false) && bottom == Some(true)
    ensures r == Some(Not) <==> !top && left == Some(false) && right == Some(false) && bottom == Some(false)
  {
    if top then Some(Top)
    else match left
      case None => None
      case Some(true) => Some(Left)
      case Some(false) =>
        match right
        case None => None
        case Some(true) => Some(Right)
        case Some(false) =>
          match bottom
          case None => None
          case Some(true) => Some(Bottom)
          case Some(false) => Some(Not)
  }
}
