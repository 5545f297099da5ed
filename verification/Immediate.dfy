/** The calls of target.go that wait for the responses on their channel. */
module Immediate {
  import opened Wire
  import opened Packets
  import opened Packer
  import opened Sessions

  /** WriteNow: the first error of the responses, if there is one. */
  method WriteNow(responses: seq<Response>) returns (err: Error)
    ensures err == NoError <==> forall i :: 0 <= i < |responses| ==> responses[i].err == NoError
    ensures err != NoError ==>
              exists i :: 0 <= i < |responses| && responses[i].err == err &&
                          forall j :: 0 <= j < i ==> responses[j].err == NoError
  {
    for i := 0 to |responses|
      invariant forall j :: 0 <= j < i ==> responses[j].err == NoError
    {
      if responses[i].err != NoError {
        return responses[i].err;
      }
    }
    err := NoError;
  }

  lemma {:induction false} DataNext(responses: seq<Response>, i: nat)
    requires i < |responses|
    ensures Data(responses[..i + 1]) == Data(responses[..i]) + responses[i].data
  {
    if i == 0 {
      assert responses[..1] == [responses[0]] && responses[..0] == [];
      assert [responses[0]][1..] == [];
    } else {
      DataNext(responses[1..], i - 1);
      assert responses[..i + 1][1..] == responses[1..][..i] && responses[..i][1..] == responses[1..][..i - 1];
      JoinAssoc(responses[0].data, Data(responses[1..][..i - 1]), responses[i].data);
    }
  }

  /** ReadNow: the data of the responses up to and including the first error. */
  method ReadNow(responses: seq<Response>) returns (data: seq<Word>, err: Error)
    ensures err == NoError <==> forall i :: 0 <= i < |responses| ==> responses[i].err == NoError
    ensures err == NoError ==> data == Data(responses)
    ensures err != NoError ==>
              exists i :: 0 <= i < |responses| && responses[i].err == err && data == Data(responses[..i + 1])
                          && forall j :: 0 <= j < i ==> responses[j].err == NoError
  {
    data := [];
    for i := 0 to |responses|
      invariant data == Data(responses[..i])
      invariant forall j :: 0 <= j < i ==> responses[j].err == NoError
    {
      DataNext(responses, i);
      data := data + responses[i].data;
      if responses[i].err != NoError {
        return data, responses[i].err;
      }
    }
    assert responses[..|responses|] == responses;
    err := NoError;
  }

  /** ReadNow on the channel that a session has filled: the words of the unsplit read, and no error. */
  method ReadServed(channel: seq<ChanEvent>, ghost req: UserRequest, ghost order: Order, ghost ws: seq<Word>)
    returns (data: seq<Word>, err: Error)
    requires Served(channel, req, order, ws) && Words(req) > 0 && !req.byteslice
    ensures data == ws && err == NoError
  {
    OrderlyResponses(channel, req.resp);
    data, err := ReadNow(ResponsesOn(channel));
  }

  /** WriteNow on such a channel: no error. */
  method WriteServed(channel: seq<ChanEvent>, ghost req: UserRequest, ghost order: Order, ghost ws: seq<Word>)
    returns (err: Error)
    requires Served(channel, req, order, ws) && Words(req) > 0
    ensures err == NoError
  {
    OrderlyResponses(channel, req.resp);
    err := WriteNow(ResponsesOn(channel));
  }
}
