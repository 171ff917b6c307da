/** `MtException`: an exception carrying an error code, the code's title and a
    description that is the caller's message or, failing that, the code's own. */
module MtExceptions {
  import opened Nullable
  import opened Text

  /** `ErrorCode.Title()` and `ErrorCode.Desc()` over a code type `C`; their
      definitions are not part of this model, so they are taken as given. */
  datatype Catalog<!C> = Catalog(title: C -> string, desc: C -> string)

  /** The state `MtException` and its base `MtBaseException` keep: the inner
      exception, the code (the `Code` property), the title and the description. */
  datatype MtException<C, E> = MtException(inner: Nullable<E>, code: C, title: string, description: string)

  /** `MtException(Exception? innerException, ErrorCode code, string? message)`. */
  function Create<C, E>(catalog: Catalog<C>, inner: Nullable<E>, code: C, message: Nullable<string>): (e: MtException<C, E>)
    ensures e.code == code
    ensures e.inner == inner
    ensures e.title == catalog.title(code)
    ensures HasText(message) ==> e.description == message.value
    ensures IsNullOrWhiteSpace(message) ==> e.description == catalog.desc(code)
  {
    MtException(inner, code, catalog.title(code),
      if IsNullOrWhiteSpace(message) then catalog.desc(code) else message.value)
  }

  /** `MtException(ErrorCode code, string message)`, which delegates with no inner exception. */
  function CreateWithMessage<C, E>(catalog: Catalog<C>, code: C, message: Nullable<string>): (e: MtException<C, E>)
    ensures e.inner.Null?
    ensures e == Create(catalog, Null, code, message)
  {
    Create(catalog, Null, code, message)
  }

  /** `MtException(ErrorCode code)`, which delegates with neither an inner exception nor a message. */
  function CreateFromCode<C, E>(catalog: Catalog<C>, code: C): (e: MtException<C, E>)
    ensures e.inner.Null?
    ensures e.description == catalog.desc(code)
    ensures e == Create(catalog, Null, code, Null)
  {
    Create(catalog, Null, code, Null)
  }

  /** Whatever the constructor, the `Code` property (the `code` field) holds the
      code it was given. */
  lemma CodeIsStored<C, E>(catalog: Catalog<C>, inner: Nullable<E>, code: C, message: Nullable<string>)
    ensures Create(catalog, inner, code, message).code == code
    ensures CreateWithMessage<C, E>(catalog, code, message).code == code
    ensures CreateFromCode<C, E>(catalog, code).code == code
  {
  }

  /** The description is never blank as long as the code's own description is not. */
  lemma DescriptionHasText<C, E>(catalog: Catalog<C>, inner: Nullable<E>, code: C, message: Nullable<string>)
    requires !IsBlank(catalog.desc(code))
    ensures !IsBlank(Create(catalog, inner, code, message).description)
  {
  }

  /** The inner exception has no influence on the title or the description. */
  lemma InnerDoesNotAffectText<C, E>(catalog: Catalog<C>, inner1: Nullable<E>, inner2: Nullable<E>, code: C, message: Nullable<string>)
    ensures Create(catalog, inner1, code, message).description == Create(catalog, inner2, code, message).description
    ensures Create(catalog, inner1, code, message).title == Create(catalog, inner2, code, message).title
  {
  }
}
