/** `DynamicFieldsModelSerializer`: a serializer whose field set can be
    narrowed by a `fields` constructor argument and by a `fields` query
    parameter of the request (comma-separated). Fields are only ever
    removed. */
module DynamicFields {
  import opened Wrappers
  import opened Text

  /** Drop every field not in `allowed`. */
  function Keep(existing: set<string>, allowed: set<string>): (r: set<string>)
    ensures forall f :: f in r <==> f in existing && f in allowed
  {
    existing - (existing - allowed)
  }

  /** The names a query parameter value allows. */
  function ParamNames(param: string): set<string> {
    set p | p in Split(param, ',')
  }

  /** The `__init__` restriction: `kwarg` is the `fields` argument (None
      when not passed; an empty list removes everything), `param` the
      query parameter (None without a request or parameter; an empty value
      restricts nothing). */
  function Restrict(existing: set<string>, kwarg: Option<seq<string>>, param: Option<string>): (r: set<string>)
    ensures r <= existing
    ensures kwarg.Some? ==> forall f :: f in r ==> f in kwarg.value
    ensures param.Some? && param.value != "" ==> r <= ParamNames(param.value)
    ensures forall f :: f in r <==>
              && f in existing
              && (kwarg.Some? ==> f in kwarg.value)
              && (param.Some? && param.value != "" ==> f in Split(param.value, ','))
    ensures kwarg.None? && (param.None? || param.value == "") ==> r == existing
  {
    var afterKwarg := if kwarg.Some? then Keep(existing, set f | f in kwarg.value) else existing;
    if param.Some? && param.value != "" then Keep(afterKwarg, ParamNames(param.value)) else afterKwarg
  }

  /** The two restrictions commute, and applying them again changes
      nothing. */
  lemma RestrictOrderFree(existing: set<string>, kwarg: Option<seq<string>>, param: Option<string>)
    ensures Restrict(Restrict(existing, None, param), kwarg, None) == Restrict(existing, kwarg, param)
    ensures Restrict(Restrict(existing, kwarg, None), None, param) == Restrict(existing, kwarg, param)
    ensures Restrict(Restrict(existing, kwarg, param), kwarg, param) == Restrict(existing, kwarg, param)
  {
  }

  /** A field whose name holds a comma can never be selected through the
      query parameter. */
  lemma CommaFieldUnreachable(existing: set<string>, param: string, f: string)
    requires param != "" && ',' in f
    ensures f !in Restrict(existing, None, Some(param))
  {
  }
}
