/**
 * Document extraction from crawled data: keep, for every URL, its
 * `"document"` value when that value is present and truthy.
 *
 * The crawled data is loaded JSON, so a URL's details are a dictionary of
 * JSON values; `Value` models the JSON values Python compares and tests
 * for truth here.
 */
module Utils {

  /** A JSON value as loaded by Python (floating-point numbers are not modelled). */
  datatype Value = Null | Bool(b: bool) | Number(n: int) | Text(s: string) | List(items: seq<Value>)

  /** The value of `EMPTY`, the empty string. */
  const EMPTY: Value := Text("")

  /** Python truthiness: `None`, `False`, `0`, `""` and `[]` are false. */
  predicate Truthy(v: Value)
  {
    match v
    case Null => false
    case Bool(b) => b
    case Number(n) => n != 0
    case Text(s) => s != ""
    case List(items) => items != []
  }

  /** The test `document and document != EMPTY` on a URL's details. */
  predicate HasDocument(details: map<string, Value>)
  {
    "document" in details && Truthy(details["document"]) && details["document"] != EMPTY
  }

  /**
   * `extract_documents_from_crawled_data`: the documents of exactly those
   * URLs whose details hold a non-empty document, each kept unchanged.
   * Details without a `"document"` key are skipped.
   */
  method ExtractDocumentsFromCrawledData(data: map<string, map<string, Value>>)
    returns (documents: map<string, Value>)
    ensures documents.Keys <= data.Keys
    ensures forall url :: url in documents ==> url in data && HasDocument(data[url])
    ensures forall url :: url in data && HasDocument(data[url]) ==>
      url in documents && documents[url] == data[url]["document"]
  {
    documents := map[];
    var pending := data.Keys;
    while pending != {}
      invariant pending <= data.Keys
      invariant forall url :: url in documents ==> url in data && url !in pending && HasDocument(data[url])
      invariant forall url :: url in data && url !in pending && HasDocument(data[url]) ==>
        url in documents && documents[url] == data[url]["document"]
      decreases pending
    {
      var url :| url in pending;
      var details := data[url];
      if "document" in details {
        var document := details["document"];
        if Truthy(document) && document != EMPTY {
          documents := documents[url := document];
        }
      }
      pending := pending - {url};
    }
  }
}
