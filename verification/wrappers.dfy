/** Failure-carrying results shared by every part of the model, and the
    error kinds the Python code raises. */
module Wrappers {

  datatype Option<+T> = None | Some(value: T)

  /** What the code raises. Each constructor names the Python exception it
      stands for. */
  datatype Error =
    | MissingAttribute(attr: string)   // AttributeError on a read or delattr
    | MissingKey(key: string)          // KeyError on a dict read
    | CallFailed                       // TypeError: a real (de)serializer called without its argument
    | NoName                           // grpc.RpcError: neither a proto name nor a __name__
    | DuplicateName(name: string)      // grpc.RpcError: the name is already registered
    | NoAddFunction(name: string)      // grpc.RpcError: no add_<name>Servicer_to_server known
    | NamesWithoutModule               // grpc.RpcError: names given without a module
    | FileNotFound(path: string)       // FileNotFoundError
    | EmptySelection                   // NameError('List of services is empty')
    | FilterUnavailable                // NotADirectoryError raised by GRPCServer.filter
    | NotInstantiable(id: nat)         // TypeError (or another error) raised by calling a service class
    | NoWorkers                        // ValueError: a thread pool needs max_workers > 0

  /** An operation that either fails before touching any state or succeeds. */
  datatype Result<+T> = Ok(value: T) | Err(error: Error) {
    predicate IsFailure() { Err? }

    function PropagateFailure<U>(): Result<U>
      requires Err?
    {
      Err(error)
    }

    function Extract(): T
      requires Ok?
    {
      value
    }
  }

  /** An operation that may raise part-way through. The state is what the
      object holds afterwards, including every change made before the raise:
      the Python code never rolls anything back. */
  datatype Outcome<+S> = Outcome(state: S, error: Option<Error>) {
    predicate Raised() { error.Some? }
  }
}
