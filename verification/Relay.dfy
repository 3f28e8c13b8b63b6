/**
 The relay's credential table and session indexes (internal/engine/server.go).

 `Tables` is what the two mutexes guard; the functions over it say what one critical section does.
 `Session` and `Server` are the program's objects. Here each public operation runs undisturbed;
 RelayRuns takes the operations apart and interleaves their critical sections.
 */
module Relay {
  import opened Words
  import opened Wire

  type ClientID = string
  type IPv4 = uint32

  datatype Credential = Credential(name: string, clientID: ClientID, key: Bytes, tunnelIP: IPv4)

  /** A UDP address and port. */
  type Endpoint = string

  /** What a session remembers of one path; its id and nonce never change. */
  datatype Path = Path(id: uint32, clientNonce: Id16, remote: Endpoint, lastSeen: int, healthy: bool)

  /** What a hello says that matters to sessions. */
  datatype Greeting = Greeting(instanceNonce: Id16, wireVersion: nat)

  /** What becomes of a hello once its session is found. */
  datatype Registration =
    | Foreign(path: Path)
    | Answered(path: Path)
    | Exhausted
    | TurnedAway(id: uint32)
    | Registered(path: Path)

  datatype Error = BadClientID | BadKey | BadAddress | OutsideSubnet | AddressTaken | KeyTaken | CredentialChanged

  /** Two hellos come from one client process, as far as they tell: their instance nonces agree, or neither has one. */
  ghost predicate SameProcess(a: Greeting, b: Greeting) {
    if a.wireVersion >= 2 && b.wireVersion >= 2 then a.instanceNonce == b.instanceNonce
    else a.wireVersion < 2 && b.wireVersion < 2
  }

  const PATH_TIMEOUT := 10_000_000_000
  const PATH_LIFETIME := 60_000_000_000

  // ----- sessions -----

  class Session {
    const id: uint64
    const credential: Credential
    const instanceNonce: Id16
    const legacy: bool
    var closing: bool
    var nextPathID: uint32
    var paths: map<uint32, Path>
    var lastSeen: int

    constructor (id: uint64, credential: Credential, hello: Greeting, now: int)
      ensures this.id == id && this.credential == credential
      ensures instanceNonce == hello.instanceNonce && (legacy <==> hello.wireVersion < 2)
      ensures !closing && nextPathID == 0 && paths == map[] && lastSeen == now
      ensures forall later: Greeting :: Matches(later) <==> SameProcess(hello, later)
    {
      this.id, this.credential := id, credential;
      this.instanceNonce, this.legacy := hello.instanceNonce, hello.wireVersion < 2;
      this.closing, this.nextPathID, this.paths, this.lastSeen := false, 0, map[], now;
    }

    /** Whether a client process saying `hello` joins this session. */
    predicate Accepts(hello: Greeting): (joins: bool)
      reads this`closing
      ensures closing ==> !joins
    {
      !closing && Matches(hello)
    }

    /** The same client process; legacy clients send no instance nonce to tell. */
    predicate Matches(hello: Greeting) {
      if legacy || hello.wireVersion < 2 then legacy && hello.wireVersion < 2
      else instanceNonce == hello.instanceNonce
    }

    /** The end of a hello's handling. A nonce already seen gets its welcome again, unless it comes from another
        address, and its path is as healthy as the sending went; a new nonce gets a path under the next id.
        Hellos are handled one at a time, so no two paths ever answer to one nonce. */
    method RegisterPath(nonce: Id16, remote: Endpoint, now: int, sent: bool) returns (r: Registration)
      requires PathsApart(paths)
      modifies this`paths, this`nextPathID, this`lastSeen
      ensures PathsApart(paths)
      ensures r.Foreign? || r.Answered? <==> exists id :: id in old(paths) && old(paths)[id].clientNonce == nonce
      ensures r.Foreign? ==> && r.path.id in old(paths) && r.path == old(paths)[r.path.id]
                             && r.path.clientNonce == nonce && r.path.remote != remote
      ensures r.Answered? ==> && Holds(old(paths), r.path) && r.path.clientNonce == nonce && r.path.remote == remote
                              && r.path.healthy == sent
                              && r.path == old(paths)[r.path.id].(healthy := sent)
      ensures r.Foreign? || r.Answered? ==> nextPathID == old(nextPathID)
      ensures !(r.Foreign? || r.Answered?) ==>
                nextPathID == (if old(nextPathID) == TWO_32 - 1 then 0 else old(nextPathID) + 1)
      ensures r.Exhausted? <==> !(r.Foreign? || r.Answered?) && !(0 < nextPathID < TWO_31)
      ensures r.Registered? <==> !(r.Foreign? || r.Answered?) && 0 < nextPathID < TWO_31 && !closing
      ensures r.Registered? ==> r.path == Path(nextPathID, nonce, remote, now, true) && lastSeen == now
      ensures paths == if r.Registered? || r.Answered? then old(paths)[r.path.id := r.path] else old(paths)
    {
      var known := PathForNonce(nonce);
      if known.Some? {
        if known.value.remote != remote {
          return Foreign(known.value);
        }
        var path := known.value.(healthy := sent);
        paths := paths[path.id := path];
        return Answered(path);
      }
      nextPathID := if nextPathID == TWO_32 - 1 then 0 else nextPathID + 1;
      if nextPathID == 0 || nextPathID >= TWO_31 {
        return Exhausted;
      }
      var path := Path(nextPathID, nonce, remote, now, true);
      var added := AddPath(path);
      if !added {
        return TurnedAway(nextPathID);
      }
      lastSeen := now;
      return Registered(path);
    }

    method PathForNonce(nonce: Id16) returns (r: Option<Path>)
      requires PathsApart(paths)
      ensures r.Some? ==> r.value.clientNonce == nonce && r.value.id in paths && paths[r.value.id] == r.value
      ensures r.None? ==> forall id :: id in paths ==> paths[id].clientNonce != nonce
    {
      var ids := paths.Keys;
      while ids != {}
        invariant ids <= paths.Keys
        invariant forall id :: id in paths && id !in ids ==> paths[id].clientNonce != nonce
        decreases ids
      {
        var id :| id in ids;
        if paths[id].clientNonce == nonce {
          return Some(paths[id]);
        }
        ids := ids - {id};
      }
      return None;
    }

    method AddPath(path: Path) returns (added: bool)
      modifies this`paths
      ensures added == !closing
      ensures paths == if added then old(paths)[path.id := path] else old(paths)
    {
      if closing {
        return false;
      }
      paths := paths[path.id := path];
      return true;
    }

    method MarkClosing() returns (open: set<Path>)
      modifies this`closing
      ensures closing && open == paths.Values
    {
      closing := true;
      open := paths.Values;
    }

    /** The last path out closes the session, so that no path can join it any more. */
    method RemovePath(path: Path) returns (empty: bool)
      modifies this`paths, this`closing
      ensures paths == if Holds(old(paths), path) then old(paths) - {path.id} else old(paths)
      ensures empty == (paths == map[])
      ensures closing == (old(closing) || empty)
      ensures PathsApart(old(paths)) ==> PathsApart(paths)
    {
      if PathsApart(paths) { RemovalKeepsApart(paths, path.id); }
      if Holds(paths, path) {
        paths := paths - {path.id};
      }
      empty := |paths| == 0;
      if empty {
        closing := true;
      }
    }

    /** Forgets paths silent for a minute and marks those silent for ten seconds unhealthy. */
    method ExpirePaths(now: int)
      modifies this`paths
      ensures paths == Surviving(old(paths), now)
      ensures PathsApart(old(paths)) ==> PathsApart(paths)
    {
      if PathsApart(paths) { AgeingKeepsApart(paths, now); }
      var ids := paths.Keys;
      while ids != {}
        invariant ids <= old(paths).Keys
        invariant paths.Keys
               == set id | id in old(paths) && (id in ids || now - old(paths)[id].lastSeen <= PATH_LIFETIME)
        invariant forall id :: id in paths && id in ids ==> paths[id] == old(paths)[id]
        invariant forall id :: id in paths && id !in ids ==>
                    paths[id] == Aged(old(paths)[id], now)
        decreases ids
      {
        var id :| id in ids;
        var path := paths[id];
        if now - path.lastSeen > PATH_TIMEOUT {
          paths := paths[id := path.(healthy := false)];
        }
        if now - path.lastSeen > PATH_LIFETIME {
          paths := paths - {id};
        }
        ids := ids - {id};
      }
    }
  }

  function Aged(p: Path, now: int): Path {
    if now - p.lastSeen > PATH_TIMEOUT then p.(healthy := false) else p
  }

  function Surviving(paths: map<uint32, Path>, now: int): map<uint32, Path> {
    map id | id in paths && now - paths[id].lastSeen <= PATH_LIFETIME :: Aged(paths[id], now)
  }

  /** A path heard from within a minute stays, and stays healthy if it was and was heard from within ten seconds;
      nothing else about it changes. */
  lemma SurvivingMeaning(paths: map<uint32, Path>, now: int)
    ensures forall id :: id in Surviving(paths, now) <==> id in paths && now - paths[id].lastSeen <= 60_000_000_000
    ensures forall id :: id in Surviving(paths, now) ==>
              && (Surviving(paths, now)[id].healthy <==>
                    paths[id].healthy && now - paths[id].lastSeen <= 10_000_000_000)
              && Surviving(paths, now)[id] == paths[id].(healthy := Surviving(paths, now)[id].healthy)
  {
  }

  /** Paths are filed under their ids, and no two answer to one handshake nonce. */
  ghost predicate PathsApart(paths: map<uint32, Path>) {
    && (forall id :: id in paths ==> paths[id].id == id)
    && (forall i, j :: i in paths && j in paths && i != j ==> paths[i].clientNonce != paths[j].clientNonce)
  }

  lemma RemovalKeepsApart(paths: map<uint32, Path>, id: uint32)
    requires PathsApart(paths)
    ensures PathsApart(paths - {id})
  {
  }

  lemma AgeingKeepsApart(paths: map<uint32, Path>, now: int)
    requires PathsApart(paths)
    ensures PathsApart(Surviving(paths, now))
  {
    var kept := Surviving(paths, now);
    assert forall id :: id in kept ==> kept[id].id == paths[id].id && kept[id].clientNonce == paths[id].clientNonce;
  }

  /** `path` is the one registered under its id. */
  predicate Holds(paths: map<uint32, Path>, path: Path) {
    path.id in paths && paths[path.id].clientNonce == path.clientNonce
  }

  /** The path registered under an id, and no other that once had the id, is held. */
  lemma HoldsIff(paths: map<uint32, Path>, path: Path)
    requires PathsApart(paths) && path.id in paths
    ensures Holds(paths, path) <==> path.clientNonce == paths[path.id].clientNonce
    ensures Holds(paths, path) ==>
              forall id :: id in paths && paths[id].clientNonce == path.clientNonce ==> id == path.id
  {
  }

  // ----- what one critical section does to the tables -----

  datatype Tables = Tables(
    credentials: map<ClientID, Credential>,
    sessions: map<uint64, Session>,
    byClient: map<ClientID, Session>,
    byIP: map<IPv4, Session>,
    active: int)

  /** Another client already has this address or this key. */
  predicate Clashes(credentials: map<ClientID, Credential>, c: Credential) {
    exists other :: other in credentials && other != c.clientID
                    && (credentials[other].tunnelIP == c.tunnelIP || credentials[other].key == c.key)
  }

  /** The credential differs in what a session depends on. */
  predicate Replaces(credentials: map<ClientID, Credential>, c: Credential) {
    c.clientID in credentials
    && (credentials[c.clientID].key != c.key || credentials[c.clientID].tunnelIP != c.tunnelIP)
  }

  predicate IsCurrent(credentials: map<ClientID, Credential>, c: Credential) {
    c.clientID in credentials && credentials[c.clientID].key == c.key && credentials[c.clientID].tunnelIP == c.tunnelIP
  }

  function Detach(t: Tables, s: Session): Tables {
    if s.id !in t.sessions || t.sessions[s.id] != s then t else
      var client, ip := s.credential.clientID, s.credential.tunnelIP;
      Tables(t.credentials, t.sessions - {s.id},
             if client in t.byClient && t.byClient[client] == s then t.byClient - {client} else t.byClient,
             if ip in t.byIP && t.byIP[ip] == s then t.byIP - {ip} else t.byIP,
             t.active - 1)
  }

  function TerminateClient(t: Tables, client: ClientID): Tables {
    if client in t.byClient then Detach(t, t.byClient[client]) else t
  }

  function Install(t: Tables, s: Session): Tables {
    Tables(t.credentials, t.sessions[s.id := s], t.byClient[s.credential.clientID := s],
           t.byIP[s.credential.tunnelIP := s], t.active + 1)
  }

  /** The whole of getOrCreateSession when the client's session does not accept the hello. */
  function Replace(t: Tables, s: Session): Tables {
    Install(TerminateClient(t, s.credential.clientID), s)
  }

  ghost function Clients(t: Tables, ids: set<uint64>): set<ClientID> {
    set id | id in ids && id in t.sessions :: t.sessions[id].credential.clientID
  }

  ghost function Addresses(t: Tables, ids: set<uint64>): set<IPv4> {
    set id | id in ids && id in t.sessions :: t.sessions[id].credential.tunnelIP
  }

  /** The janitor deletes the entries of expired sessions by client and by address, whoever holds them. */
  ghost function Expire(t: Tables, ids: set<uint64>): Tables {
    Tables(t.credentials, t.sessions - ids, t.byClient - Clients(t, ids), t.byIP - Addresses(t, ids),
           t.active - |t.sessions.Keys * ids|)
  }
}
