/** Query parameters of the listing page's URL, as a map from name to value,
    and the targets that the components navigate to. */
module SearchParams {
  type Params = map<string, string>

  /** A navigation target: `path` followed by `?` and the query. */
  datatype Url = Url(path: string, query: Params)

  const Home := "/"
}
