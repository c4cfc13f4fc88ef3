/** The enumerations that decisions, sizing and theses share. */
module Enums {
  datatype Action = Watch | Buy | Add | Hold | Reduce | Exit | Avoid
  datatype Gate = UnknownGate | Pass | Veto
  datatype ThesisState = Unknown | Valid | Strengthening | Weakening | Broken
}
