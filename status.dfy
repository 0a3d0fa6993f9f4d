/**
 * The three-valued outcome shared by the command line and the bundler
 * (`StatusCode` in tmpl.ts). It sits in a module of its own because the
 * bundler imports it from the command-line module, which imports the bundler.
 */
module StatusCodes {

  datatype StatusCode = Success | Failure | Pending {

    /** The numeric value of the enum member. */
    function Code(): (n: nat)
      ensures n < 3
      ensures (n == 0) == Success? && (n == 1) == Failure? && (n == 2) == Pending?
    {
      match this
      case Success => 0
      case Failure => 1
      case Pending => 2
    }
  }
}
