/** ATemp.go: the handler that turns a table name into a SELECT query and a
    cache key, runs the query, and stores the JSON result under the key.
    The Postgres fetch, the JSON encoding and the Redis store are outcome
    parameters. Go's map iteration order is the order of `queryParams`. */
module QueryKey {

  /** generateQueryAndKey. The loop's own `key` variable (the parameter
      name) shadows the outer key, so the loop only ever extends its own copy;
      the outer key stays tableName + "?", and dropping its last character
      leaves the table name. */
  method GenerateQueryAndKey(tableName: string, queryParams: seq<(string, seq<string>)>)
    returns (query: string, key: string)
    ensures query == "SELECT * FROM " + tableName
    ensures key == tableName
  {
    query := "SELECT * FROM " + tableName;
    key := tableName + "?";
    var p := 0;
    while p < |queryParams|
      invariant 0 <= p <= |queryParams| && key == tableName + "?"
    {
      var paramKey := queryParams[p].0;
      var values := queryParams[p].1;
      var v := 0;
      while v < |values|
        invariant 0 <= v <= |values|
      {
        paramKey := paramKey + (paramKey + "=" + values[v] + "&");
        v := v + 1;
      }
      p := p + 1;
    }
    key := key[..|key| - 1];
  }

  datatype Body = ErrorBody(error: string) | DataBody(data: string)

  const StatusOK := 200
  const StatusBadRequest := 400
  const StatusInternalServerError := 500

  /** handleRequest: `queries` are the queries sent to Postgres and `stored`
      the (key, JSON) pairs written to Redis. */
  method HandleRequest(tableName: string, queryParams: seq<(string, seq<string>)>,
                       fetchFails: bool, marshalFails: bool, storeFails: bool, jsonData: string)
    returns (status: int, body: Body, queries: seq<string>, stored: seq<(string, string)>)
    ensures tableName == "" ==>
      status == StatusBadRequest && body == ErrorBody("tableName parameter is missing")
      && queries == [] && stored == []
    ensures tableName != "" ==> queries == ["SELECT * FROM " + tableName]
    ensures tableName != "" && fetchFails ==>
      status == StatusInternalServerError && body == ErrorBody("Error fetching data from PostgreSQL") && stored == []
    ensures tableName != "" && !fetchFails && marshalFails ==>
      status == StatusInternalServerError && body == ErrorBody("Error converting data to JSON") && stored == []
    ensures tableName != "" && !fetchFails && !marshalFails ==> stored == [(tableName, jsonData)]
    ensures tableName != "" && !fetchFails && !marshalFails && storeFails ==>
      status == StatusInternalServerError && body == ErrorBody("Error storing JSON data in Redis")
    ensures tableName != "" && !fetchFails && !marshalFails && !storeFails ==>
      status == StatusOK && body == DataBody(jsonData)
  {
    queries := [];
    stored := [];
    if tableName == "" {
      return StatusBadRequest, ErrorBody("tableName parameter is missing"), queries, stored;
    }
    var query, key := GenerateQueryAndKey(tableName, queryParams);
    queries := queries + [query];
    if fetchFails {
      return StatusInternalServerError, ErrorBody("Error fetching data from PostgreSQL"), queries, stored;
    }
    if marshalFails {
      return StatusInternalServerError, ErrorBody("Error converting data to JSON"), queries, stored;
    }
    stored := stored + [(key, jsonData)];
    if storeFails {
      return StatusInternalServerError, ErrorBody("Error storing JSON data in Redis"), queries, stored;
    }
    return StatusOK, DataBody(jsonData), queries, stored;
  }
}
