/** The exceptions the compiler can raise, one constructor per `throw` site. */
module Failures {

  datatype Failure =
      /**
        A property segment failed its shape check (`#startValidation`). The
        message reads `this.regexMismatches`, which is never set, so it carries
        no segment.
       */
    | InvalidProperty
      /** A lowered property name is an inherited member of the abbreviation object, so the following `replace` throws. */
    | PrototypeMember(name: string)
      /** The validated property and value counts differ. */
    | CountMismatch(properties: nat, values: nat)
      /** The element is not an attached HTML element. */
    | Detached
}
