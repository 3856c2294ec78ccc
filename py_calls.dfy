/** The Python call rules that decide whether a line raises: binding a call's
    arguments to a signature, subscripting a dictionary, and iterating a value.
    The members here are used to state what the code does as written where it
    raises before doing what it evidently means to. */
module PyCalls {
  import opened Wrappers

  datatype PyError = TypeError(reason: string) | KeyError(key: string)

  /** What executing a piece of code ends in: a value, or an exception. */
  datatype Raising<+T> = Returns(value: T) | Raises(error: PyError)

  /** Binding a call (Python 2, no `*args`/`**kwargs`): `positional` arguments
      fill the leading parameters of `params`, each keyword fills the parameter
      of that name, and the first `required` parameters have no default.
      The call raises `TypeError` unless every argument finds its own free
      parameter and every parameter without a default is filled. */
  function BindArgs(positional: nat, keywords: set<string>, params: seq<string>, required: nat)
    : (r: Option<PyError>)
    requires required <= |params|
    ensures r.Some? ==> r.value.TypeError?
    ensures r.None? <==>
      && positional <= |params|
      && (forall k :: k in keywords ==> k in params && k !in params[..positional])
      && (forall i :: positional <= i < required ==> params[i] in keywords)
  {
    if positional > |params| then Some(TypeError("takes at most the declared arguments"))
    else if exists k :: k in keywords && k in params[..positional] then Some(TypeError("got multiple values for keyword argument"))
    else if exists k :: k in keywords && k !in params then Some(TypeError("got an unexpected keyword argument"))
    else if exists i :: positional <= i < required && params[i] !in keywords then Some(TypeError("takes exactly the declared arguments"))
    else None
  }

  /** `d[key]` on a dictionary whose keys are `keys`. */
  function Subscript(keys: set<string>, key: string): (r: Option<PyError>)
    ensures r.None? <==> key in keys
    ensures r.Some? ==> r.value == KeyError(key)
  {
    if key in keys then None else Some(KeyError(key))
  }

  /** The keys of the dictionary `S_OK(v)` / `S_ERROR(m)` builds, as the code
      here reads them: `OK` with `Value`, or `OK` with `Message`. */
  function WrapperKeys<T>(r: Result<T>): set<string> {
    if r.Success? then {"OK", "Value"} else {"OK", "Message"}
  }

  /** `for x in v` where `v` is a list or `None`. */
  function Iterate<T>(v: Option<seq<T>>): (r: Raising<seq<T>>)
    ensures r.Raises? <==> v.None?
    ensures v.Some? ==> r == Returns(v.value)
  {
    if v.None? then Raises(TypeError("'NoneType' object is not iterable")) else Returns(v.value)
  }
}
