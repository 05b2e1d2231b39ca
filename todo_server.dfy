/** The list logic of the todo server. The contents of the todo file are a
    sequence of records. Every request handler reads that sequence; GET only
    reads, POST always writes the new list back, and PUT and DELETE write it
    back only when the id is found. Identifiers come from a clock and are not
    guaranteed to be unique, so every lookup is a first-match search. */
module TodoServer {

  import opened Wrappers

  /** One todo record as stored in the file. */
  datatype Todo = Todo(id: int, title: string, description: string)

  /** The status a handler answers with: 200, 201 or 404. */
  datatype Status = Ok | Created | NotFound

  /** Reference definition of the first-match search: the position of the
      first record carrying `id`, or -1 when there is none. */
  function IndexOf(s: seq<Todo>, id: int): (r: int)
    ensures -1 <= r < |s|
    ensures r == -1 <==> forall j :: 0 <= j < |s| ==> s[j].id != id
    ensures 0 <= r ==> s[r].id == id && forall j :: 0 <= j < r ==> s[j].id != id
  {
    if |s| == 0 then -1
    else if s[0].id == id then 0
    else
      var r := IndexOf(s[1..], id);
      if r == -1 then -1 else r + 1
  }

  /** `findIndex`: an indexed loop that returns at the first record whose id
      matches, and -1 when the loop runs off the end. */
  method FindIndex(arr: seq<Todo>, id: int) returns (i: int)
    ensures -1 <= i < |arr|
    ensures i == -1 <==> forall j :: 0 <= j < |arr| ==> arr[j].id != id
    ensures 0 <= i ==> arr[i].id == id && forall j :: 0 <= j < i ==> arr[j].id != id
    ensures i == IndexOf(arr, id)
  {
    i := 0;
    while i < |arr|
      invariant 0 <= i <= |arr|
      invariant forall j :: 0 <= j < i ==> arr[j].id != id
    {
      if arr[i].id == id {
        IndexOfFirstMatch(arr, id, i);
        return;
      }
      i := i + 1;
    }
    i := -1;
  }

  /** The first-match properties determine the search result uniquely. */
  lemma IndexOfFirstMatch(s: seq<Todo>, id: int, k: int)
    requires 0 <= k < |s| && s[k].id == id
    requires forall j :: 0 <= j < k ==> s[j].id != id
    ensures IndexOf(s, id) == k
  {
  }

  /** `removeAtIndex`: builds a fresh sequence holding every element except
      the one at `index`; an index outside the sequence skips nothing. */
  method RemoveAtIndex<T>(arr: seq<T>, index: int) returns (newArray: seq<T>)
    ensures 0 <= index < |arr| ==> newArray == arr[..index] + arr[index + 1..]
    ensures 0 <= index < |arr| ==> |newArray| == |arr| - 1
    ensures !(0 <= index < |arr|) ==> newArray == arr
  {
    newArray := [];
    for i := 0 to |arr|
      invariant 0 <= index < i ==> newArray == arr[..index] + arr[index + 1..i]
      invariant !(0 <= index < i) ==> newArray == arr[..i]
    {
      if i != index {
        newArray := newArray + [arr[i]];
      }
    }
    assert arr[..|arr|] == arr;
  }

  /** Number of records carrying `id`; used to state what deletion does to
      a list in which ids may repeat. */
  function CountId(s: seq<Todo>, id: int): (n: nat)
    ensures n <= |s|
    ensures n == 0 <==> IndexOf(s, id) == -1
  {
    if |s| == 0 then 0
    else (if s[0].id == id then 1 else 0) + CountId(s[1..], id)
  }

  /** Creating a record and then reading its id finds the new record unless
      an earlier record already carried that id, in which case the earlier one
      shadows it. */
  lemma {:induction false} CreateThenRead(s: seq<Todo>, t: Todo)
    ensures IndexOf(s + [t], t.id) == (if IndexOf(s, t.id) == -1 then |s| else IndexOf(s, t.id))
  {
    var k := IndexOf(s, t.id);
    var s' := s + [t];
    if k == -1 {
      assert s'[|s|] == t;
      assert forall j :: 0 <= j < |s| ==> s'[j] == s[j];
      IndexOfFirstMatch(s', t.id, |s|);
    } else {
      assert forall j :: 0 <= j <= k ==> s'[j] == s[j];
      IndexOfFirstMatch(s', t.id, k);
    }
  }

  /** Replacing the first match by a record with the same id keeps it the
      first match, so a read after an update returns the updated record. */
  lemma {:induction false} UpdateThenRead(s: seq<Todo>, id: int, t: Todo)
    requires IndexOf(s, id) != -1
    requires t.id == id
    ensures IndexOf(s[IndexOf(s, id) := t], id) == IndexOf(s, id)
  {
    var k := IndexOf(s, id);
    IndexOfFirstMatch(s[k := t], id, k);
  }

  /** Deleting at position `k` removes exactly that record from the list's
      multiset of records. */
  lemma {:induction false} DeleteRemovesOne<T>(s: seq<T>, k: int)
    requires 0 <= k < |s|
    ensures multiset(s[..k] + s[k + 1..]) + multiset{s[k]} == multiset(s)
  {
    calc {
      multiset(s);
      { assert s == s[..k] + [s[k]] + s[k + 1..]; }
      multiset(s[..k] + [s[k]] + s[k + 1..]);
      multiset(s[..k]) + multiset{s[k]} + multiset(s[k + 1..]);
    }
  }

  /** The count of a sequence split in two is the sum of the counts. */
  lemma {:induction false} CountIdConcat(a: seq<Todo>, b: seq<Todo>, id: int)
    ensures CountId(a + b, id) == CountId(a, id) + CountId(b, id)
  {
    if |a| == 0 {
      assert a + b == b;
    } else {
      assert (a + b)[1..] == a[1..] + b;
      CountIdConcat(a[1..], b, id);
    }
  }

  /** Deleting the first match lowers the number of records with that id by
      exactly one; when the id was unique, a read afterwards finds nothing. */
  lemma DeleteThenRead(s: seq<Todo>, id: int)
    requires IndexOf(s, id) != -1
    ensures CountId(s[..IndexOf(s, id)] + s[IndexOf(s, id) + 1..], id) == CountId(s, id) - 1
    ensures CountId(s, id) == 1 ==> IndexOf(s[..IndexOf(s, id)] + s[IndexOf(s, id) + 1..], id) == -1
  {
    var k := IndexOf(s, id);
    assert s == s[..k] + ([s[k]] + s[k + 1..]);
    CountIdConcat(s[..k], [s[k]] + s[k + 1..], id);
    CountIdConcat([s[k]], s[k + 1..], id);
    CountIdConcat(s[..k], s[k + 1..], id);
    assert CountId([s[k]], id) == 1 by { assert [s[k]][1..] == []; }
  }

  /** The todo file: its contents as the parsed list of records. GET only
      reads them; POST always writes the list back, and PUT and DELETE write
      it back only when the id is found. */
  class TodoFile {
    var todos: seq<Todo>

    constructor (contents: seq<Todo>)
      ensures todos == contents
    {
      todos := contents;
    }

    /** GET /todos/:id: the first record with `id`, or 404. */
    method Get(id: int) returns (status: Status, body: Option<Todo>)
      ensures status == Ok || status == NotFound
      ensures status == NotFound <==> forall j :: 0 <= j < |todos| ==> todos[j].id != id
      ensures status == NotFound ==> body == None
      ensures status == Ok ==> body == Some(todos[IndexOf(todos, id)])
    {
      var todoIndex := FindIndex(todos, id);
      if todoIndex == -1 {
        status, body := NotFound, None;
      } else {
        status, body := Ok, Some(todos[todoIndex]);
      }
    }

    /** POST /todos: appends a record with the supplied id, title and
        description and answers 201 with that record. */
    method Post(id: int, title: string, description: string) returns (status: Status, created: Todo)
      modifies this
      ensures status == Created
      ensures created == Todo(id, title, description)
      ensures |todos| == |old(todos)| + 1
      ensures todos[..|old(todos)|] == old(todos) && todos[|old(todos)|] == created
    {
      var newTodo := Todo(id, title, description);
      todos := todos + [newTodo];
      status, created := Created, newTodo;
    }

    /** PUT /todos/:id: replaces the first record with `id` by one that keeps
        its id and takes the request's title and description. */
    method Put(id: int, title: string, description: string) returns (status: Status, body: Option<Todo>)
      modifies this
      ensures status == Ok || status == NotFound
      ensures status == NotFound <==> forall j :: 0 <= j < |old(todos)| ==> old(todos)[j].id != id
      ensures status == NotFound ==> todos == old(todos) && body == None
      ensures status == Ok ==>
        var k := IndexOf(old(todos), id);
        |todos| == |old(todos)| &&
        todos[k] == Todo(old(todos)[k].id, title, description) &&
        todos[k].id == id &&
        (forall j :: 0 <= j < |todos| && j != k ==> todos[j] == old(todos)[j]) &&
        body == Some(todos[k])
    {
      var todoIndex := FindIndex(todos, id);
      if todoIndex == -1 {
        status, body := NotFound, None;
      } else {
        var updatedTodo := Todo(todos[todoIndex].id, title, description);
        todos := todos[todoIndex := updatedTodo];
        status, body := Ok, Some(updatedTodo);
      }
    }

    /** DELETE /todos/:id: removes the first record with `id`, keeping the
        others in order. */
    method Delete(id: int) returns (status: Status)
      modifies this
      ensures status == Ok || status == NotFound
      ensures status == NotFound <==> forall j :: 0 <= j < |old(todos)| ==> old(todos)[j].id != id
      ensures status == NotFound ==> todos == old(todos)
      ensures status == Ok ==>
        var k := IndexOf(old(todos), id);
        todos == old(todos)[..k] + old(todos)[k + 1..]
      ensures status == Ok ==>
        multiset(todos) + multiset{old(todos)[IndexOf(old(todos), id)]} == multiset(old(todos))
    {
      var todoIndex := FindIndex(todos, id);
      if todoIndex == -1 {
        status := NotFound;
      } else {
        DeleteRemovesOne(todos, todoIndex);
        todos := RemoveAtIndex(todos, todoIndex);
        status := Ok;
      }
    }
  }
}
