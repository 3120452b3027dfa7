/** The server's table of sessions (internal/server/server.go). */
module Registry {

  datatype Key = Key(ns: string, id: string)

  const DEFAULT_NAMESPACE := "default"

  function NsOf(ns: string): string {
    if ns == "" then DEFAULT_NAMESPACE else ns
  }

  /** The empty namespace is the one called "default", and otherwise different namespaces stay different. */
  lemma NamespacesStayApart(a: string, b: string)
    ensures NsOf("") == "default" && (a != "" ==> NsOf(a) == a)
    ensures NsOf(a) == NsOf(b) <==> a == b || {a, b} == {"", "default"}
  {
  }

  /** The table after `s` has been offered for `key`; `held` says whether a live session holds the key. */
  function AfterAdd<S>(table: map<Key, S>, key: Key, s: S, held: bool): map<Key, S> {
    if key in table && held then table else table[key := s]
  }

  /** The table after the session `s` has withdrawn. */
  function AfterRemove<S(==)>(table: map<Key, S>, key: Key, s: S): map<Key, S> {
    if key in table && table[key] == s then table - {key} else table
  }

  /** Offering a session never displaces a live one, and withdrawing one never removes another. */
  lemma AddAndRemoveSpareOthers<S>(table: map<Key, S>, key: Key, s: S, held: bool, k: Key, other: S)
    requires k in table && table[k] == other && other != s
    ensures k != key || held ==> var t := AfterAdd(table, key, s, held); k in t && t[k] == other
    ensures var t := AfterRemove(table, key, s); k in t && t[k] == other
  {
  }

  /** What the table needs to know of a session. */
  class Session {
    const key: Key
    var alive: bool

    constructor (ns: string, id: string)
      ensures key == Key(if ns == "" then "default" else ns, id) && alive
    {
      key := Key(NsOf(ns), id);
      alive := true;
    }
  }

  class Server {
    var sessions: map<Key, Session>

    /** Sessions stand under their own keys. */
    ghost predicate Valid()
      reads this
    {
      forall k :: k in sessions ==> sessions[k].key == k
    }

    constructor ()
      ensures Valid() && sessions == map[]
    {
      sessions := map[];
    }

    method AddSession(sess: Session) returns (winner: Session)
      requires Valid()
      modifies this
      ensures Valid()
      ensures var held := sess.key in old(sessions) && old(sessions)[sess.key].alive;
              sessions == AfterAdd(old(sessions), sess.key, sess, held)
      ensures sess.key in sessions && winner == sessions[sess.key]
      ensures winner == sess || (winner.alive && sessions == old(sessions))
    {
      if sess.key in sessions {
        var cur := sessions[sess.key];
        if cur.alive {
          return cur;
        }
      }
      sessions := sessions[sess.key := sess];
      return sess;
    }

    method RemoveSession(sess: Session)
      requires Valid()
      modifies this
      ensures Valid()
      ensures sessions == AfterRemove(old(sessions), sess.key, sess)
      ensures forall k :: k in sessions ==> sessions[k] != sess
    {
      if sess.key in sessions && sessions[sess.key] == sess {
        sessions := sessions - {sess.key};
      }
    }

    method GetSession(ns: string, id: string) returns (sess: Session?)
      requires Valid()
      ensures sess != null <==> Key(if ns == "" then "default" else ns, id) in sessions
      ensures sess != null ==> sess == sessions[Key(NsOf(ns), id)]
    {
      var key := Key(NsOf(ns), id);
      if key in sessions {
        return sessions[key];
      }
      return null;
    }
  }
}
