/** Tasks on their way through the TCP service: from a connection through a chain of task
    pipes to the worker, and back through the same pipes to the connection. */
module Routing {
  import opened Protocol

  datatype Request = Request(connection: nat, cmd: nat, body: seq<byte>)
  datatype Response = Response(connection: nat, cmd: nat, body: seq<byte>)

  // CReplyDispatcher: a task pipe, or the client reply.
  datatype Dispatcher = Pipe(index: nat) | Client

  // A queue that a task passes: a pipe's incoming or return queue.
  datatype Hop = Incoming(index: nat) | Returning(index: nat)

  // The worker's answer, {"code":1}.
  const ANSWER: seq<byte> := [0x7B, 0x22, 0x63, 0x6F, 0x64, 0x65, 0x22, 0x3A, 0x31, 0x7D]

  function Answer(r: Request): Response {
    Response(r.connection, r.cmd, ANSWER)
  }

  class Task {
    const request: Request
    var replies: seq<Dispatcher>     // CTaskReplyList, its front first
    var response: Option<Response>
    ghost var place: nat             // the queue it is in
    ghost var path: seq<Hop>         // the queues it has passed

    constructor (request: Request)
      ensures this.request == request && replies == [] && response == None && path == []
    {
      this.request := request;
      replies, response, place, path := [], None, 0, [];
    }

    method PushReplyDispatcher(d: Dispatcher)
      modifies this`replies
      ensures replies == [d] + old(replies)
    {
      replies := [d] + replies;
    }

    method PopFront() returns (d: Option<Dispatcher>)
      modifies this`replies
      ensures if old(replies) == [] then d == None && replies == []
              else d == Some(old(replies)[0]) && replies == old(replies)[1..]
    {
      if replies == [] {
        return None;
      }
      d := Some(replies[0]);
      replies := replies[1..];
    }
  }

  // What a task that has come through the first n pipes answers to: the last pipe first.
  function Route(n: nat): seq<Dispatcher> {
    if n == 0 then [Client] else [Pipe(n - 1)] + Route(n - 1)
  }

  /** The queues of k pipes in one line, numbered from the client's end: the return queues
      of pipes 0 to k - 1 and then the incoming queues of pipes k - 1 to 0. A task enters
      at the last number and each step takes it to the next lower one. */
  function HopAt(k: nat, place: nat): Hop
    requires place < 2 * k
  {
    if place < k then Returning(place) else Incoming(2 * k - 1 - place)
  }

  function RepliesAt(k: nat, place: nat): seq<Dispatcher>
    requires place < 2 * k
  {
    if place < k then Route(place) else Route(2 * k - place)
  }

  // The queues passed when place has been reached.
  function Path(k: nat, place: nat): seq<Hop>
    requires place <= 2 * k
    decreases 2 * k - place
  {
    if place == 2 * k then [] else Path(k, place + 1) + [HopAt(k, place)]
  }

  /** The whole path: every pipe once, and back through them in the reverse order. */
  lemma {:induction false} PathBack(k: nat, place: nat)
    requires place <= 2 * k
    ensures |Path(k, place)| == 2 * k - place
    ensures forall i :: 0 <= i < 2 * k - place ==>
              Path(k, place)[i] == if i < k then Incoming(i) else Returning(2 * k - 1 - i)
    decreases 2 * k - place
  {
    if place < 2 * k {
      PathBack(k, place + 1);
    }
  }

  function Requests(tasks: seq<Task>): (r: seq<Request>)
    ensures |r| == |tasks|
  {
    seq(|tasks|, i requires 0 <= i < |tasks| => tasks[i].request)
  }

  function Answers(rs: seq<Request>): (r: seq<Response>)
    ensures |r| == |rs|
  {
    seq(|rs|, i requires 0 <= i < |rs| => Answer(rs[i]))
  }

  // The first task of a queue has gone to the back of the next one.
  function Moved(places: seq<seq<Task>>, p: nat): seq<seq<Task>>
    requires 0 < p < |places| && places[p] != []
  {
    places[p := places[p][1..]][p - 1 := places[p - 1] + [places[p][0]]]
  }

  // A task that moves from the front of one queue to the back of the next keeps its place
  // in the line.
  lemma LineMoved(places: seq<seq<Task>>, p: nat)
    requires 0 < p < |places| && places[p] != []
    ensures Flatten(Moved(places, p)) == Flatten(places)
  {
    hide Flatten;
    var a, x, y, b := places[..p - 1], places[p - 1], places[p], places[p + 1..];
    var moved := places[p := y[1..]][p - 1 := x + [y[0]]];
    assert places == a + ([x] + ([y] + b));
    assert moved == a + ([x + [y[0]]] + ([y[1..]] + b));
    FlattenConcat(a, [x] + ([y] + b));
    FlattenConcat([x], [y] + b);
    FlattenConcat([y], b);
    FlattenConcat(a, [x + [y[0]]] + ([y[1..]] + b));
    FlattenConcat([x + [y[0]]], [y[1..]] + b);
    FlattenConcat([y[1..]], b);
    FlattenOne(x);
    FlattenOne(y);
    FlattenOne(x + [y[0]]);
    FlattenOne(y[1..]);
    assert x + (y + Flatten(b)) == x + [y[0]] + (y[1..] + Flatten(b));
  }

  lemma LineEntered(places: seq<seq<Task>>, t: Task)
    requires places != []
    ensures var n := |places| - 1; Flatten(places[n := places[n] + [t]]) == Flatten(places) + [t]
  {
    hide Flatten;
    var n := |places| - 1;
    var a, q := places[..n], places[n];
    assert places == a + [q] && places[n := q + [t]] == a + [q + [t]];
    FlattenConcat(a, [q]);
    FlattenConcat(a, [q + [t]]);
    FlattenOne(q);
    FlattenOne(q + [t]);
  }

  lemma LineLeft(places: seq<seq<Task>>)
    requires places != [] && places[0] != []
    ensures Flatten(places) == [places[0][0]] + Flatten(places[0 := places[0][1..]])
  {
    assert places[0] == [places[0][0]] + places[0][1..];
  }

  class Service {
    const k: nat                       // how many pipes lie between client and worker
    var places: seq<seq<Task>>         // their queues, numbered as HopAt numbers them
    var responses: seq<Response>       // what was passed to SendPacket
    ghost var requests: seq<Request>   // what was passed to OnPacket
    ghost var answered: seq<Request>   // the requests of the responses
    ghost var paths: seq<seq<Hop>>     // the paths of their tasks
    ghost var tasks: set<Task>

    ghost predicate At(t: Task, p: nat)
      requires p < 2 * k
      reads t
    {
      && t.place == p && t.replies == RepliesAt(k, p) && t.path == Path(k, p)
      && t.response == if p < k then Some(Answer(t.request)) else None
    }

    // Every task in a queue belongs there, so no task is in two, nor in one twice.
    ghost predicate Placed()
      reads this, tasks
    {
      && |places| == 2 * k
      && (forall p, j :: 0 <= p < 2 * k && 0 <= j < |places[p]| ==> places[p][j] in tasks && At(places[p][j], p))
      && (forall p, i, j :: 0 <= p < 2 * k && 0 <= i < j < |places[p]| ==> places[p][i] != places[p][j])
    }

    // The responses, and the tasks in line after them, are those of the requests in order.
    ghost predicate Ordered()
      reads this
    {
      && answered + Requests(Flatten(places)) == requests
      && responses == Answers(answered)
      && |paths| == |answered|
      && forall i :: 0 <= i < |paths| ==> paths[i] == Path(k, 0)
    }

    /** Each request's task is in exactly one place, or answered once; nothing overtakes;
        and every answered task has gone through all pipes and back in reverse. */
    ghost predicate Valid()
      reads this, tasks
    {
      Placed() && Ordered()
    }

    constructor (pipes: nat)
      ensures Valid() && k == pipes && requests == [] && responses == []
    {
      k := pipes;
      places := seq(2 * pipes, _ => []);
      responses, requests, answered, paths, tasks := [], [], [], [], {};
      new;
      LineEmpty(places);
    }

    // CTaskReplyList::ReplyNotify and what it calls: a pipe's return queue takes the task,
    // or the client reply sends the response. n is the place where that is.
    method ReplyNotify(t: Task, ghost n: int)
      requires |places| == 2 * k && -1 <= n < k
      requires t.replies == Route(n + 1) && t.response == Some(Answer(t.request)) && t.path == Path(k, n + 1)
      modifies this`places, this`responses, this`answered, this`paths, t
      ensures if n < 0 then
                && places == old(places) && responses == old(responses) + [Answer(t.request)]
                && answered == old(answered) + [t.request] && paths == old(paths) + [Path(k, 0)]
              else
                && places == old(places)[n := old(places)[n] + [t]] && At(t, n)
                && responses == old(responses) && answered == old(answered) && paths == old(paths)
    {
      var d := t.PopFront();
      match d.value
      case Client =>
        responses := responses + [t.response.value];
        answered := answered + [t.request];
        paths := paths + [t.path];
      case Pipe(j) =>
        places := places[j := places[j] + [t]];
        t.place, t.path := j, t.path + [HopAt(k, j)];
    }

    // The i-th dispatcher's TaskNotify: a pipe, or behind the last one the worker.
    method TaskNotify(t: Task, i: nat)
      requires |places| == 2 * k && i <= k
      requires t.replies == Route(i) && t.response == None && t.path == Path(k, 2 * k - i)
      modifies this`places, this`responses, this`answered, this`paths, t
      ensures var n := 2 * k - 1 - i;
              if n < 0 then
                && places == old(places) && responses == old(responses) + [Answer(t.request)]
                && answered == old(answered) + [t.request] && paths == old(paths) + [Path(k, 0)]
              else
                && places == old(places)[n := old(places)[n] + [t]] && At(t, n)
                && responses == old(responses) && answered == old(answered) && paths == old(paths)
    {
      if i < k {
        t.PushReplyDispatcher(Pipe(i));
        var n := 2 * k - 1 - i;
        places := places[n := places[n] + [t]];
        t.place, t.path := n, t.path + [HopAt(k, n)];
      } else {
        t.response := Some(Response(t.request.connection, t.request.cmd, ANSWER));
        ReplyNotify(t, k - 1);
      }
    }

    /** A connection has decoded a request. */
    method OnPacket(request: Request)
      requires Valid()
      modifies this
      ensures Valid() && requests == old(requests) + [request]
      ensures if k == 0 then responses == old(responses) + [Answer(request)] && places == old(places)
              else
                && responses == old(responses) && |places| == 2 * k && places[2 * k - 1] != []
                && var t := places[2 * k - 1][|places[2 * k - 1]| - 1];
                   t.request == request && places == old(places)[2 * k - 1 := old(places)[2 * k - 1] + [t]]
    {
      hide Flatten, Route, Path, Requests, Answers;
      var t := new Task(request);
      t.PushReplyDispatcher(Client);
      ghost var was := places;
      Entering(k);
      tasks := tasks + {t};
      requests := requests + [request];
      TaskNotify(t, 0);
      if k > 0 {
        LineEntered(was, t);
        RequestsSnoc(answered, Flatten(was), t);
      } else {
        LineEmpty(places);
        AnswersSnoc(old(answered), request);
        RequestsNone(old(answered));
        RequestsNone(answered);
      }
    }

    /** The reader of a pipe's incoming queue has popped a task. */
    method IncomingNotify(i: nat)
      requires Valid() && i < k && places[2 * k - 1 - i] != []
      modifies this`places, this`responses, this`answered, this`paths, tasks
      ensures Valid() && requests == old(requests)
      ensures var p := 2 * k - 1 - i;
              && responses == old(responses)
              && places == Moved(old(places), p)
    {
      hide Flatten, Route, Path, Requests, Answers;
      ghost var p, was := 2 * k - 1 - i, places;
      var t := places[2 * k - 1 - i][0];
      places := places[2 * k - 1 - i := places[2 * k - 1 - i][1..]];
      TaskNotify(t, i + 1);
      LineMoved(was, p);
    }

    /** The reader of a pipe's return queue has popped a task. */
    method ReturnNotify(i: nat)
      requires Valid() && i < k && places[i] != []
      modifies this`places, this`responses, this`answered, this`paths, tasks
      ensures Valid() && requests == old(requests)
      ensures if i == 0 then
                && responses == old(responses) + [Answer(old(places[0][0].request))]
                && places == old(places)[0 := old(places)[0][1..]]
              else responses == old(responses) && places == Moved(old(places), i)
    {
      hide Flatten, Route, Path, Requests, Answers;
      ghost var was := places;
      var t := places[i][0];
      places := places[i := places[i][1..]];
      ReplyNotify(t, i - 1);
      if i > 0 {
        LineMoved(was, i);
      } else {
        LineLeft(was);
        AnswersSnoc(old(answered), t.request);
        RequestsFirst(old(answered), t, Flatten(places));
      }
    }
  }

  lemma Entering(k: nat)
    ensures Route(0) == [Client] && Path(k, 2 * k) == []
  {
  }

  lemma {:induction false} LineEmpty(places: seq<seq<Task>>)
    requires forall i :: 0 <= i < |places| ==> places[i] == []
    ensures Flatten(places) == []
  {
    if places != [] {
      LineEmpty(places[1..]);
    }
  }

  lemma RequestsNone(a: seq<Request>)
    ensures Requests([]) == [] && a + Requests([]) == a
  {
  }

  lemma RequestsSnoc(a: seq<Request>, line: seq<Task>, t: Task)
    ensures a + Requests(line + [t]) == a + Requests(line) + [t.request]
  {
  }

  lemma RequestsFirst(a: seq<Request>, t: Task, line: seq<Task>)
    ensures a + Requests([t] + line) == a + [t.request] + Requests(line)
  {
  }

  lemma AnswersSnoc(a: seq<Request>, r: Request)
    ensures Answers(a + [r]) == Answers(a) + [Answer(r)]
  {
  }

  // What concerns one connection.
  function RequestsOf(rs: seq<Request>, connection: nat): seq<Request> {
    if rs == [] then []
    else (if rs[0].connection == connection then [rs[0]] else []) + RequestsOf(rs[1..], connection)
  }

  function ResponsesOf(rs: seq<Response>, connection: nat): seq<Response> {
    if rs == [] then []
    else (if rs[0].connection == connection then [rs[0]] else []) + ResponsesOf(rs[1..], connection)
  }

  lemma {:induction false} RequestsOfConcat(a: seq<Request>, b: seq<Request>, connection: nat)
    ensures RequestsOf(a + b, connection) == RequestsOf(a, connection) + RequestsOf(b, connection)
  {
    if a == [] {
      assert a + b == b;
    } else {
      assert (a + b)[1..] == a[1..] + b;
      RequestsOfConcat(a[1..], b, connection);
      var first := if a[0].connection == connection then [a[0]] else [];
      ConcatAssociates(first, RequestsOf(a[1..], connection), RequestsOf(b, connection));
    }
  }

  lemma {:induction false} ResponsesOfAnswers(rs: seq<Request>, connection: nat)
    ensures ResponsesOf(Answers(rs), connection) == Answers(RequestsOf(rs, connection))
  {
    if rs != [] {
      assert Answers(rs)[1..] == Answers(rs[1..]);
      ResponsesOfAnswers(rs[1..], connection);
      var rest := RequestsOf(rs[1..], connection);
      assert Answers([rs[0]] + rest) == [Answer(rs[0])] + Answers(rest);
      assert [] + rest == rest;
    }
  }

  lemma {:induction false} OfConnection(rs: seq<Request>, connection: nat)
    ensures forall r :: r in RequestsOf(rs, connection) ==> r.connection == connection
  {
    if rs != [] {
      OfConnection(rs[1..], connection);
    }
  }

  /** On every connection the responses are the answers to its first requests, in order,
      and when no task is in line they answer all of them. */
  lemma ResponsesInOrder(requests: seq<Request>, answered: seq<Request>, line: seq<Task>, connection: nat)
    requires answered + Requests(line) == requests
    ensures ResponsesOf(Answers(answered), connection) <= Answers(RequestsOf(requests, connection))
    ensures line == [] ==> ResponsesOf(Answers(answered), connection) == Answers(RequestsOf(requests, connection))
    ensures var rs := ResponsesOf(Answers(answered), connection);
            forall i :: 0 <= i < |rs| ==>
              rs[i] == Response(connection, RequestsOf(requests, connection)[i].cmd, Text("{\"code\":1}"))
  {
    hide Requests;
    RequestsOfConcat(answered, Requests(line), connection);
    ResponsesOfAnswers(answered, connection);
    OfConnection(requests, connection);
    assert ANSWER == Text("{\"code\":1}");
    if line == [] {
      RequestsNone(answered);
    }
  }
}
