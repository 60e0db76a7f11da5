/** The email record both searches read, and the lower-cased text they
    search in. */
module Mail {
  import opened Text

  datatype Option<T> = None | Some(value: T)

  /** `d.get(key, '')` */
  function GetOrEmpty(field: Option<string>): string {
    match field
    case None => []
    case Some(s) => s
  }

  /** An email as the JSON store holds it: each of the three fields the
      searches read may be missing. `sender` is the JSON key `from`. */
  datatype Email = Email(subject: Option<string>, sender: Option<string>, snippet: Option<string>)

  /** `f"{subject} {from} {snippet}".lower()`, a missing field read as the
      empty string. */
  function SearchText(e: Email): (text: string)
    ensures NoUpper(text)
    ensures text == Lower(GetOrEmpty(e.subject)) + " " + Lower(GetOrEmpty(e.sender)) + " " + Lower(GetOrEmpty(e.snippet))
  {
    var raw := GetOrEmpty(e.subject) + " " + GetOrEmpty(e.sender) + " " + GetOrEmpty(e.snippet);
    LowerSpec(raw);
    LowerAppend(GetOrEmpty(e.subject) + " " + GetOrEmpty(e.sender) + " ", GetOrEmpty(e.snippet));
    LowerAppend(GetOrEmpty(e.subject) + " " + GetOrEmpty(e.sender), " ");
    LowerAppend(GetOrEmpty(e.subject) + " ", GetOrEmpty(e.sender));
    LowerAppend(GetOrEmpty(e.subject), " ");
    Lower(raw)
  }
}
