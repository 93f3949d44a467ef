/** `st.session_state` of the two chat front ends, as far as
    pg-bot/st_utils.py and ragbot/st_utils.py change it: a map from keys
    to values that `clear_messages` and `clear_history` update in place. */
module Session {

  /** A value kept in the session: a list (the chat messages, the response
      history) or a single piece of text. */
  datatype Value = Items(items: seq<string>) | Scalar(text: string)

  const MessagesKey: string := "messages"
  const HistoryKey: string := "history"

  /** The session after `messages` is set to the empty list. */
  function WithoutMessages(state: map<string, Value>): (r: map<string, Value>)
    ensures MessagesKey in r && r[MessagesKey] == Items([])
    ensures r.Keys == state.Keys + {MessagesKey}
    ensures forall k :: k in state && k != MessagesKey ==> r[k] == state[k]
  {
    state[MessagesKey := Items([])]
  }

  /** The session after `history` is deleted, if it was there. */
  function WithoutHistory(state: map<string, Value>): (r: map<string, Value>)
    ensures HistoryKey !in r
    ensures r.Keys == state.Keys - {HistoryKey}
    ensures forall k :: k in r ==> r[k] == state[k]
  {
    state - {HistoryKey}
  }

  /** Clearing the history twice is clearing it once, and clearing a
      session without history changes nothing. */
  lemma ClearHistoryIdempotent(state: map<string, Value>)
    ensures WithoutHistory(WithoutHistory(state)) == WithoutHistory(state)
    ensures HistoryKey !in state ==> WithoutHistory(state) == state
  {
    assert WithoutHistory(WithoutHistory(state)).Keys == WithoutHistory(state).Keys;
  }

  /** The two clear operations touch different keys, so their order does
      not matter. */
  lemma ClearsCommute(state: map<string, Value>)
    ensures WithoutHistory(WithoutMessages(state)) == WithoutMessages(WithoutHistory(state))
  {
    var a := WithoutHistory(WithoutMessages(state));
    var b := WithoutMessages(WithoutHistory(state));
    assert a.Keys == b.Keys;
  }

  class SessionState {
    var state: map<string, Value>

    constructor (initial: map<string, Value>)
      ensures state == initial
    {
      state := initial;
    }

    /** clear_messages() */
    method ClearMessages()
      modifies this
      ensures state == WithoutMessages(old(state))
    {
      state := state[MessagesKey := Items([])];
    }

    /** clear_history() */
    method ClearHistory()
      modifies this
      ensures state == WithoutHistory(old(state))
    {
      if HistoryKey in state {
        state := state - {HistoryKey};
      }
    }
  }
}
