/** The values that the master, the controller, the slaves and Redis exchange. */
module Domain {

  datatype Option<+T> = None | Some(value: T)

  datatype Result<+T, +E> = Ok(value: T) | Err(error: E)

  /** Every status text other than the three named ones, the empty one included, is `Unspecified`. */
  datatype SlaveStatus = Unspecified | Live | Terminating | Gone

  datatype DeathReason = NoReason | Lifespan | Disease | ProcessDown | PodDown | UserAction

  datatype SessionMeta = SessionMeta(sessionID: string, startedAt: int)

  /** What a field of type `SessionMeta` holds before it is set. */
  const NO_META := SessionMeta("", 0)

  datatype SessionMetrics = SessionMetrics(sessionID: string, liveSlaves: int, goneSlaves: int, updatedAt: int)

  /** The session id is filled in when a change left it empty, and the time is set. */
  function StampMetrics(m: SessionMetrics, sessionID: string, now: int): SessionMetrics {
    (if m.sessionID == "" then m.(sessionID := sessionID) else m).(updatedAt := now)
  }

  datatype SlaveState = SlaveState(
    sessionID: string,
    slaveID: string,
    podName: string,
    podIP: string,
    status: SlaveStatus,
    deathReason: DeathReason)

  predicate IsTerminal(status: SlaveStatus) {
    status.Terminating? || status.Gone?
  }

  predicate IsSpace(c: char) {
    || '\t' <= c <= '\r' || c == ' ' || c == '\U{85}' || c == '\U{A0}' || c == '\U{1680}'
    || '\U{2000}' <= c <= '\U{200A}' || c == '\U{2028}' || c == '\U{2029}' || c == '\U{202F}'
    || c == '\U{205F}' || c == '\U{3000}'
  }

  /** Nothing is left of the text once white space is trimmed. */
  predicate IsBlank(s: string) {
    forall i :: 0 <= i < |s| ==> IsSpace(s[i])
  }

  /** `strings.TrimLeft` by white space. */
  function TrimLeft(s: string): string {
    if s != "" && IsSpace(s[0]) then TrimLeft(s[1..]) else s
  }

  lemma {:induction false} BlankIsTrimmed(s: string)
    ensures IsBlank(s) <==> TrimLeft(s) == ""
  {
    if s != "" && IsSpace(s[0]) {
      BlankIsTrimmed(s[1..]);
      assert IsBlank(s) <==> IsBlank(s[1..]) by {
        assert forall i :: 0 < i < |s| ==> s[i] == s[1..][i - 1];
      }
    }
  }

  /** The white space of ASCII is tab, line feed, vertical tab, form feed, carriage return and space. */
  lemma SpacesAre(c: char)
    ensures c < '\U{80}' ==> (IsSpace(c) <==> c in {'\t', '\n', '\U{B}', '\U{C}', '\r', ' '})
  {
  }
}
