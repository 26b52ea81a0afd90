/** What the models share: options, a search result as every source returns it
    (sources/source.go), and lists without repetition. */
module SearchTypes {
  datatype Option<T> = None | Some(value: T)

  datatype Result = Result(title: string, url: string, content: string, score: real)

  predicate Distinct<T(==)>(s: seq<T>) { forall i, j :: 0 <= i < j < |s| ==> s[i] != s[j] }
}
