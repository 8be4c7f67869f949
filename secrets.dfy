/**
 * The provider-agnostic surface of the library: what a provider can do, and the ways a call
 * can fail.
 */
module Secrets {

  /** SecretCapability: the one operation any provider offers. */
  datatype Capability = KvRead

  /**
   * The exceptions the library raises, each with its message.
   *   IllegalArgument - java.lang.IllegalArgumentException (a required setting is missing)
   *   NumberFormat    - java.lang.NumberFormatException (a numeric setting does not parse)
   *   NotFound        - SecretNotFoundException (a subclass of SecretException)
   *   SecretError     - SecretException
   *   IoError         - any other checked exception: a transport failure, malformed JSON
   */
  datatype Failure =
    | IllegalArgument(message: string)
    | NumberFormat(message: string)
    | NotFound(message: string)
    | SecretError(message: string)
    | IoError(message: string)
  {
    /** True of the failures a `catch (SecretException e)` clause catches. */
    predicate IsSecretException() { NotFound? || SecretError? }
  }

  /** The capabilities every provider of this library advertises. */
  function KvOnly(): (r: set<Capability>)
    ensures KvRead in r && |r| == 1
  {
    {KvRead}
  }
}
