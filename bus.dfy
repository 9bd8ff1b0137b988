/** The message channel between the page (guest) and the app (host). Every
    guest-to-host message is one envelope whose `type` tag is drawn from a
    closed set; the host parses it from JSON and dispatches on the tag. */
module Bus {

  /** Console levels the interceptor reports. */
  datatype Level = Log | Error | Warn | Info

  /** A captured request's status: an HTTP status code or the text 'ERR'. */
  datatype Status = Code(code: int) | Failed

  /** The `NETWORK_LOG` payload. */
  datatype NetworkEntry = NetworkEntry(id: string, timestamp: string, requestType: string,
                                       requestMethod: string, url: string, status: Status, data: string)

  /** The `ELEMENT_INSPECTED` payload. */
  datatype InspectedElement = InspectedElement(tagName: string, id: string, className: string,
                                               cssSelector: string, html: string)

  /** One entry of a key-value store, in the store's own order. */
  datatype KeyValue = KeyValue(key: string, value: string)

  /** How a store's JSON text reaches the host: absent, not parseable, or the
      object's entries. `JSON.stringify`/`JSON.parse` are not modelled further. */
  datatype JsonObject = Missing | Malformed | Entries(entries: seq<KeyValue>)

  /** The `STORAGE_DATA` payload: local and session storage as JSON text and
      the cookie string of `document.cookie`. */
  datatype StorageSnapshot = StorageSnapshot(localStorage: JsonObject, sessionStorage: JsonObject,
                                             cookies: string)

  /** The `READER_EXTRACTED` payload. */
  datatype Article = Article(title: string, content: seq<string>)

  datatype Envelope =
    | ConsoleLog(level: Level, payload: string)
    | NetworkLog(entry: NetworkEntry)
    | ElementInspected(element: InspectedElement)
    | StorageData(snapshot: StorageSnapshot)
    | ReaderExtracted(article: Article)
    | ReaderError
    | ImagesExtracted(urls: seq<string>)
    | FindResult(count: nat)
    | ViewSource(html: string)
    | SpeakText(text: string)
    | ActionComplete(message: string)
      /** Any other `type` value; the host ignores it. */
    | Unknown(tag: string)
}
