/**
 * The three per-frame moments in which auto-transitions are checked.
 * Both table generations declare the same enum; here it is declared once.
 */
module TransitionTypes {

  datatype TransitionType = Update | FixedUpdate | LateUpdate

  /** The phase a rule is added to when the caller names none. */
  const DefaultTransitionType: TransitionType := Update
}
