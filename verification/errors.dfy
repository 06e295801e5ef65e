/** The outcomes a controller endpoint can report, and the texts it
    renders: the not-found error raised by `orElseThrow` and the
    confirmation message of a delete. */
module Errors {
  import opened Repository
  import Decimal

  datatype Error =
    /** The role gate refused the call (HTTP 403). */
    | Forbidden
    /** `EntityNotFoundException(<Type>.class, id)` (HTTP 404). */
    | NotFound(typeName: string, id: Long)
    /** The store could not save a new row (HTTP 500). */
    | StoreFailure

  datatype Result<T> = Ok(value: T) | Err(error: Error)

  const WithId: string := " with id "

  /** "<Type> with id <id> <outcome>": the shape both the not-found error
      and the delete confirmation share. The id can be read back out. */
  function IdPhrase(typeName: string, id: Long, outcome: string): (m: string)
    ensures typeName <= m
    ensures PhraseId(m, typeName, outcome) == Some(id)
  {
    var head, tail := typeName + WithId, " " + outcome;
    var m := head + Decimal.Show(id) + tail;
    Decimal.ShowRoundTrip(id);
    assert m[..|head|] == head && typeName <= m;
    assert m[|m| - |tail|..] == tail;
    assert m[|head|..|m| - |tail|] == Decimal.Show(id);
    m
  }

  /** The id named by a "<Type> with id <id> <outcome>" text, if the text
      has that shape. */
  function PhraseId(m: string, typeName: string, outcome: string): Option<int> {
    var head, tail := typeName + WithId, " " + outcome;
    if |m| < |head| + |tail| || m[..|head|] != head || m[|m| - |tail|..] != tail then None
    else
      var digits := m[|head|..|m| - |tail|];
      if Decimal.IsNumeral(digits) then Some(Decimal.Parse(digits)) else None
  }

  /** The message of the not-found error: it names the type and the id. */
  function NotFoundMessage(typeName: string, id: Long): (m: string)
    ensures typeName <= m
    ensures PhraseId(m, typeName, "not found") == Some(id)
  {
    IdPhrase(typeName, id, "not found")
  }

  /** The message a successful delete returns: it names the type and the
      id. */
  function DeletedMessage(typeName: string, id: Long): (m: string)
    ensures typeName <= m
    ensures PhraseId(m, typeName, "deleted") == Some(id)
  {
    IdPhrase(typeName, id, "deleted")
  }

  /** The not-found message spelled out, given the rendered id. */
  lemma NotFoundMessageSpelled(typeName: string, id: Long, shown: string)
    requires Decimal.Show(id) == shown
    ensures NotFoundMessage(typeName, id) == typeName + " with id " + shown + " not found"
  {
  }

  /** The delete confirmation spelled out, given the rendered id. */
  lemma DeletedMessageSpelled(typeName: string, id: Long, shown: string)
    requires Decimal.Show(id) == shown
    ensures DeletedMessage(typeName, id) == typeName + " with id " + shown + " deleted"
  {
  }

  /** The HTTP status each outcome is rendered with. */
  function Status(e: Error): (code: int)
    ensures code == 403 <==> e.Forbidden?
    ensures code == 404 <==> e.NotFound?
    ensures e.StoreFailure? ==> code == 500
  {
    match e
    case Forbidden => 403
    case NotFound(_, _) => 404
    case StoreFailure => 500
  }

  /** The JSON body of an error response: only the not-found error carries
      one, with its exception type and message. */
  function Body(e: Error): (body: map<string, string>)
    ensures e.NotFound? <==> "message" in body
    ensures e.NotFound? ==>
      && body.Keys == {"type", "message"}
      && body["type"] == "EntityNotFoundException"
      && body["message"] == NotFoundMessage(e.typeName, e.id)
  {
    match e
    case NotFound(t, id) => map["type" := "EntityNotFoundException", "message" := NotFoundMessage(t, id)]
    case _ => map[]
  }

  /** The phrase names the id: two phrases for the same type and outcome
      are equal only when the ids are. */
  lemma IdPhraseDeterminesId(typeName: string, a: Long, b: Long, outcome: string)
    ensures IdPhrase(typeName, a, outcome) == IdPhrase(typeName, b, outcome) ==> a == b
  {
  }

  /** A not-found message and a delete confirmation are never the same
      text, whatever the types and ids. */
  lemma NotFoundIsNotDeleted(t1: string, a: Long, t2: string, b: Long)
    ensures NotFoundMessage(t1, a) != DeletedMessage(t2, b)
  {
    var m1, m2 := NotFoundMessage(t1, a), DeletedMessage(t2, b);
    assert m1[|m1| - 2] == 'n';
    assert m2[|m2| - 2] == 'e';
  }
}
