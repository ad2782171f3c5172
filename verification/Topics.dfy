/** Topics: `on_message` splits the topic of a request at the slashes, takes the kind of request
    from the second and third part and the device id from the fourth. */
module Topics {
  import opened Wrappers

  datatype Kind = JoinRequest | LeaveRequest | RegisterRequest | UpdateRequest | QueryRequest

  /** Python's `split`. */
  function Split(s: string, sep: char): (parts: seq<string>)
    ensures |parts| >= 1
  {
    if s == "" then [""]
    else
      var rest := Split(s[1..], sep);
      if s[0] == sep then [""] + rest else [[s[0]] + rest[0]] + rest[1..]
  }

  lemma {:induction false} SplitFirst(a: string, b: string, sep: char)
    requires sep !in a
    ensures Split(a + [sep] + b, sep) == [a] + Split(b, sep)
  {
    var s := a + [sep] + b;
    if a == "" {
      assert s[1..] == b;
    } else {
      var rest := a[1..] + [sep] + b;
      SplitFirst(a[1..], b, sep);
      assert s[1..] == rest;
      assert Split(rest, sep)[1..] == Split(b, sep);
      assert [a[0]] + a[1..] == a;
    }
  }

  /** The first part is the whole string if and only if there is no separator in it. */
  lemma {:induction false} SplitHead(s: string, sep: char)
    ensures sep !in Split(s, sep)[0]
    ensures Split(s, sep)[0] == s <==> sep !in s
  {
    if s != "" {
      SplitHead(s[1..], sep);
      assert s == [s[0]] + s[1..];
    }
  }

  /** The handler that a topic selects, and the device id it gets. `None` covers the topics that
      are only reported as errors and those too short to index. */
  function Route(topic: string): Option<(Kind, string)> {
    var parts := Split(topic, '/');
    if |parts| < 4 then None
    else if parts[1] == "configuration" then
      if parts[2] == "join" then Some((JoinRequest, parts[3]))
      else if parts[2] == "leave" then Some((LeaveRequest, parts[3]))
      else if parts[2] == "register" then Some((RegisterRequest, parts[3]))
      else if parts[2] == "update" then Some((UpdateRequest, parts[3]))
      else None
    else if parts[1] == "utilization" && parts[2] == "query" then Some((QueryRequest, parts[3]))
    else None
  }

  function Family(kind: Kind): string {
    if kind.QueryRequest? then "utilization" else "configuration"
  }

  function RequestName(kind: Kind): string {
    match kind
    case JoinRequest => "join"
    case LeaveRequest => "leave"
    case RegisterRequest => "register"
    case UpdateRequest => "update"
    case QueryRequest => "query"
  }

  function AckName(kind: Kind): string {
    match kind
    case JoinRequest => "join_ack"
    case LeaveRequest => "leave_ack"
    case RegisterRequest => "register_ack"
    case UpdateRequest => "update_ack"
    case QueryRequest => "reply"
  }

  function Topic(family: string, name: string, id: string): string {
    "/" + (family + "/" + (name + "/" + id))
  }

  /** Where a client publishes a request. */
  function RequestTopic(kind: Kind, id: string): string {
    Topic(Family(kind), RequestName(kind), id)
  }

  /** Where the manager publishes the answer. */
  function AckTopic(kind: Kind, id: string): string {
    Topic(Family(kind), AckName(kind), id)
  }

  lemma {:induction false} SplitTopic(family: string, name: string, id: string)
    requires '/' !in family && '/' !in name
    ensures Split(Topic(family, name, id), '/') == ["", family, name] + Split(id, '/')
  {
    var last := name + "/" + id;
    var rest := family + "/" + last;
    SplitFirst(name, id, '/');
    assert last == name + ['/'] + id;
    SplitFirst(family, last, '/');
    assert rest == family + ['/'] + last;
    SplitAtStart(rest);
  }

  lemma {:induction false} SplitAtStart(s: string)
    ensures Split("/" + s, '/') == [""] + Split(s, '/')
  {
    assert ("/" + s)[1..] == s;
  }

  /** A topic is its parts with slashes in front of each. */
  lemma {:induction false} TopicParts(family: string, name: string, id: string)
    ensures Topic(family, name, id) == "/" + family + "/" + name + "/" + id
  {
  }

  /** The topics of requests, as clients write them. */
  lemma {:induction false} RequestTopics(id: string)
    ensures RequestTopic(JoinRequest, id) == "/" + "configuration" + "/" + "join" + "/" + id
    ensures RequestTopic(LeaveRequest, id) == "/" + "configuration" + "/" + "leave" + "/" + id
    ensures RequestTopic(RegisterRequest, id) == "/" + "configuration" + "/" + "register" + "/" + id
    ensures RequestTopic(UpdateRequest, id) == "/" + "configuration" + "/" + "update" + "/" + id
    ensures RequestTopic(QueryRequest, id) == "/" + "utilization" + "/" + "query" + "/" + id
  {
    TopicParts("configuration", "join", id);
    TopicParts("configuration", "leave", id);
    TopicParts("configuration", "register", id);
    TopicParts("configuration", "update", id);
    TopicParts("utilization", "query", id);
  }

  /** The topics of the answers, as the manager writes them. */
  lemma {:induction false} AnswerTopics(id: string)
    ensures AckTopic(JoinRequest, id) == "/" + "configuration" + "/" + "join_ack" + "/" + id
    ensures AckTopic(LeaveRequest, id) == "/" + "configuration" + "/" + "leave_ack" + "/" + id
    ensures AckTopic(RegisterRequest, id) == "/" + "configuration" + "/" + "register_ack" + "/" + id
    ensures AckTopic(UpdateRequest, id) == "/" + "configuration" + "/" + "update_ack" + "/" + id
    ensures AckTopic(QueryRequest, id) == "/" + "utilization" + "/" + "reply" + "/" + id
  {
    TopicParts("configuration", "join_ack", id);
    TopicParts("configuration", "leave_ack", id);
    TopicParts("configuration", "register_ack", id);
    TopicParts("configuration", "update_ack", id);
    TopicParts("utilization", "reply", id);
  }

  /** A topic selects a handler just when its second and third part name it and there is a fourth part. */
  lemma {:induction false} RouteIff(topic: string, kind: Kind, id: string)
    ensures Route(topic) == Some((kind, id))
            <==> var parts := Split(topic, '/');
                 |parts| >= 4 && parts[1] == Family(kind) && parts[2] == RequestName(kind) && parts[3] == id
  {
    DistinctNames();
  }

  /** A request reaches the handler of its kind with the part of the device id before the first
      slash, which is the id itself if and only if it contains no slash. */
  lemma {:induction false} RouteRecovers(kind: Kind, id: string)
    ensures Route(RequestTopic(kind, id)) == Some((kind, Split(id, '/')[0]))
    ensures Route(RequestTopic(kind, id)) == Some((kind, id)) <==> '/' !in id
  {
    SplitTopic(Family(kind), RequestName(kind), id);
    SplitHead(id, '/');
    var parts := Split(RequestTopic(kind, id), '/');
    assert parts[1] == Family(kind) && parts[2] == RequestName(kind) && parts[3] == Split(id, '/')[0];
    DistinctNames();
  }

  lemma {:induction false} DistinctNames()
    ensures "configuration" != "utilization"
    ensures "leave" != "join" && "register" != "join" && "register" != "leave"
    ensures "update" != "join" && "update" != "leave" && "update" != "register"
  {
    assert "configuration"[0] != "utilization"[0];
    assert "leave"[0] != "join"[0] && "register"[0] != "join"[0] && "register"[0] != "leave"[0];
    assert "update"[0] != "join"[0] && "update"[0] != "leave"[0] && "update"[0] != "register"[0];
  }

  /** The same holds for the id a client recovers from the topic of the answer. */
  lemma {:induction false} AckRecovers(kind: Kind, id: string)
    ensures |Split(AckTopic(kind, id), '/')| >= 4
    ensures Split(AckTopic(kind, id), '/')[1] == Family(kind) && Split(AckTopic(kind, id), '/')[2] == AckName(kind)
    ensures Split(AckTopic(kind, id), '/')[3] == id <==> '/' !in id
  {
    SplitTopic(Family(kind), AckName(kind), id);
    SplitHead(id, '/');
  }
}
