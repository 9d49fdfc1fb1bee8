/** The exceptions the modelled code throws, or lets through from the code it calls. */
module Errors {

  datatype Error =
    /** ArgumentNullException naming the parameter. */
    | ArgumentNull(paramName: string)
    /** ArgumentException naming the parameter. */
    | Argument(paramName: string)
    /** ArgumentOutOfRangeException: DateTime arithmetic left the representable range. */
    | ArgumentOutOfRange
    /** KeyNotFoundException: a dictionary indexer read a key that is not there. */
    | KeyNotFound(key: string)
    /** NullReferenceException thrown explicitly, with its message. */
    | NullReference(message: string)
    /** NullReferenceException from calling a member on a null reference. */
    | NullDereference
    /** JobLoadException: the stored invocation data does not describe a loadable method. */
    | JobLoad
    /** TimeZoneNotFoundException for the given id. */
    | TimeZoneNotFound(id: string)
    /** Any other exception raised inside a collaborator (JSON, date or cron parsing). */
    | Foreign(description: string)
}
