/** What the crawlers see of an HTTP exchange: the status and the body text
    of the response. The transport itself is a parameter of each crawler. */
module Http {
  datatype Response = Response(status: int, text: string)

  /** httpx's `raise_for_status` lets only a 2xx status through. */
  predicate Succeeded(r: Response) {
    200 <= r.status < 300
  }
}
