/** A predicate whose body is `forall z {:trigger Open(z)} :: Open(z) ==> ...` means what follows the
    arrow, and stays closed in a proof until `Open` is asserted there. */
module Guards {

  ghost predicate Open(z: int) { true }
}
