/** ROOM sessions and the child processes they own: an N64 host process tied to a media session, and a
    link client process tied to a link session.  Whatever the server answers and whether or not a
    process can be stopped is arbitrary here. */
module RoomSession {
  import opened Options

  datatype Screen = MainMenu | LinkRoom | N64Room | Other

  /** The N64 side of the room context; an empty text is an unset one, pid 0 is no process. */
  datatype N64 = N64(pid: nat, launched: string, media: string, lifecycle: string, lifecycleRoom: nat,
                     role: Role, connection: bool, authenticated: bool, paired: bool, terminalPending: bool,
                     finishPending: bool, preflightFailed: bool, reconnecting: bool, stopFile: bool,
                     inputPath: bool, ready: bool)

  datatype Link = Link(pid: nat, started: bool, session: string, startRequested: bool, gameEnded: bool,
                       hostActive: bool, preflightBlocked: bool)

  datatype Role = NoRole | Host | Remote | OtherRole

  datatype Kind = LinkSession | MediaSession | Room | OtherKind

  /** Active stands for every status that is no reason to stop. */
  datatype Status = Active | Finalizing | Recovering | Completed | Failed | Cancelled | Closed | Expired

  /** A lifecycle notice of the server; preflight says that the reason is "preflight_failed". */
  datatype Notice = Notice(kind: Kind, session: string, status: Status, preflight: bool)

  /** The server's answer to a request for a media session, and how far the client gets with it. */
  datatype MediaAnswer = Denied | Granted(session: string, role: Role, scope: bool, prepared: bool, connects: bool)

  /** What becomes of an attempt to start a child: refused before (perhaps for unusable saves), not
      spawned (pid 0), or spawned and then equipped with its reader or sender, or not.  A child that is
      not equipped is told to stop; whether that reaped it, the link side does not ask. */
  datatype Start = Start(refused: bool, badSaves: bool, pid: nat, equipped: bool, reaped: bool)

  /** Whether the host process ends when it is told and then forced to. */
  datatype Obedience = Obeys | Refuses | Either

  /** What the server says about the user's room. */
  datatype RoomAnswer = NoAnswer | NoRoom | InRoom(number: nat)

  const ROOMS := 128

  /** Keys of the N64 room that concern its session: Return stands on the READY row, Turn on a ROM row. */
  datatype RoomKey = Escape | Return | Turn

  const NO_N64 := N64(0, "", "", "", 0, NoRole, false, false, false, false, false, false, false, false, false, false)
  const NO_LINK := Link(0, false, "", false, false, false, false)

  predicate Alphanumeric(c: char) { 'a' <= c <= 'z' || 'A' <= c <= 'Z' || '0' <= c <= '9' || c == '-' || c == '_' }

  predicate PathSafe(id: string) { 0 < |id| <= 95 && forall i | 0 <= i < |id| :: Alphanumeric(id[i]) }

  /** The notice ends a session or a room; a media session that recovers goes on. */
  predicate Ends(h: Notice) { !h.status.Active? && !(h.kind.MediaSession? && h.status.Recovering?) }

  /** What is true of the N64 side between any two events; hosts are the processes not yet reaped. */
  predicate N64Ok(n: N64, hosts: set<nat>) {
    && hosts == (if n.pid == 0 then {} else {n.pid})
    && (n.pid != 0 <==> n.launched != "")
    && (n.pid != 0 ==> n.launched == n.media)
    && (n.paired ==> n.connection)
    && (n.pid != 0 && !n.connection ==> n.terminalPending || n.reconnecting)
  }

  predicate Succeeds(s: Start) { !s.refused && s.pid != 0 && s.equipped }

  /** The child with this process number, if it is one. */
  function Child(pid: nat): multiset<nat> { if pid == 0 then multiset{} else multiset{pid} }

  /** How many children were started, and which of them were given up without being reaped. */
  datatype Spawned = Spawned(number: nat, strays: seq<nat>)

  function OneMore(s: Spawned): Spawned { s.(number := s.number + 1) }

  /** A link client was spawned, could not be equipped, and was not reaped either. */
  predicate Missed(s: Start) { !s.refused && s.pid != 0 && !s.equipped && !s.reaped }

  /** What is true of the link side between any two events; clients are the processes neither
      reaped nor given up. */
  predicate LinkOk(l: Link, clients: set<nat>) {
    && clients == (if l.pid == 0 then {} else {l.pid})
    && (l.pid != 0 <==> l.started)
    && (l.pid != 0 ==> l.session != "")
  }

  /** The connection is gone and no new one is wanted; the id is kept for the server's last word. */
  function Suspended(n: N64, room: nat): N64 {
    n.(lifecycle := if n.media != "" then n.media else n.lifecycle,
       lifecycleRoom := if n.media != "" then room else n.lifecycleRoom,
       connection := false, authenticated := false, paired := false, terminalPending := true)
  }

  function HostStopped(n: N64): N64 { n.(pid := 0, launched := "", stopFile := false) }

  function ClientStopped(l: Link): Link { l.(pid := 0, started := false, hostActive := false, gameEnded := true) }

  function CurrentMedia(n: N64, room: nat): string {
    if n.lifecycle != "" && n.lifecycleRoom == room then n.lifecycle else n.media
  }

  /** A notice about a session that is not the current one. */
  predicate Stale(h: Notice, n: N64, l: Link, room: nat) {
    || (h.kind.LinkSession? && (h.session == "" || h.session != l.session))
    || (h.kind.MediaSession? && (h.session == "" || h.session != CurrentMedia(n, room)))
  }

  class RoomContext {
    const loggedIn: bool
    /** A link client that is told to stop because it could not be equipped is always reaped. */
    const reaps: bool
    const host: Obedience
    var screen: Screen
    var roomNumber: nat
    var failures: nat
    var readySelf: bool
    var readyPeer: bool
    var epoch: nat
    var n64: N64
    var link: Link
    /** Children that were started and neither reaped nor given up. */
    ghost var hosts: set<nat>
    ghost var clients: set<nat>
    ghost var spawned: Spawned

    ghost predicate Inv()
      reads this
    {
      N64Ok(n64, hosts) && LinkOk(link, clients)
    }

    /** All link clients that were started and not yet reaped. */
    ghost function Living(): multiset<nat>
      reads this
    {
      multiset(clients) + multiset(spawned.strays)
    }

    /** A child that lives before and after is the same child, of the same session. */
    twostate predicate SameChildren()
      reads this
    {
      && (n64.pid != 0 ==> n64.pid == old(n64.pid) && n64.launched == old(n64.launched) && n64.media == old(n64.media)
                           && n64.reconnecting == old(n64.reconnecting))
      && (link.pid != 0 ==> link.pid == old(link.pid) && link.session == old(link.session))
    }

    /** Unless a child was started, one that lives is the same child, of the same session. */
    twostate predicate Owned()
      reads this
    {
      && old(spawned).number <= spawned.number && old(spawned).strays <= spawned.strays
      && (reaps ==> spawned.strays == old(spawned).strays)
      && (spawned.number == old(spawned).number && n64.pid != 0 ==>
            n64.pid == old(n64.pid) && n64.launched == old(n64.launched) && n64.media == old(n64.media))
      && (spawned.number == old(spawned).number && link.pid != 0 ==> link.pid == old(link.pid) && link.session == old(link.session))
    }

    /** Nothing was started and nothing connected. */
    twostate predicate Steady()
      reads this
    {
      spawned == old(spawned) && SameChildren() && (n64.connection ==> old(n64.connection))
    }

    constructor (loggedIn: bool, reaps: bool, host: Obedience)
      ensures Inv() && this.loggedIn == loggedIn && this.reaps == reaps && this.host == host && screen == MainMenu && roomNumber == 0
      ensures n64 == NO_N64 && link == NO_LINK && clients == {} && spawned == Spawned(0, [])
    {
      this.loggedIn, this.reaps, this.host := loggedIn, reaps, host;
      screen, roomNumber, failures, readySelf, readyPeer, epoch := MainMenu, 0, 0, false, false, 0;
      n64, link, hosts, clients, spawned := NO_N64, NO_LINK, {}, {}, Spawned(0, []);
    }

    // -------------------------------------------------------------- the N64 host process

    /** The host was told to stop: it is gone if it obeys, and still there if it does not. */
    twostate predicate Told()
      reads `n64
    {
      (host.Obeys? ==> n64.pid == 0) && (host.Refuses? ==> n64.pid == old(n64).pid)
    }

    /** Ask the host to stop, wait, force it; only a reaped process is forgotten. */
    method StopHost() returns (stopped: bool)
      requires Inv()
      modifies `n64, `hosts
      ensures Inv() && Steady()
      ensures if stopped then old(n64).pid != 0 && n64 == HostStopped(old(n64)) && hosts == {}
              else n64 == old(n64) && hosts == old(hosts)
      ensures (host.Obeys? ==> n64.pid == 0) && (host.Refuses? ==> !stopped)
    {
      if n64.pid == 0 { return false; }
      stopped := *;
      stopped := if host.Either? then stopped else host.Obeys?;
      if stopped {
        hosts := hosts - {n64.pid};
        n64 := n64.(pid := 0, launched := "", stopFile := false);
      }
    }

    /** Close the connection and stop the host if that is possible. */
    method Suspend()
      requires N64Ok(n64.(terminalPending := true), hosts) && LinkOk(link, clients)
      modifies `n64, `hosts
      ensures Inv() && Steady()
      ensures n64 == if n64.pid == old(n64).pid then Suspended(old(n64), roomNumber) else HostStopped(Suspended(old(n64), roomNumber))
      ensures n64.terminalPending && !n64.connection && n64.media == old(n64).media && n64.ready == old(n64).ready && Told()
    {
      if n64.media != "" {
        n64 := n64.(lifecycle := n64.media, lifecycleRoom := roomNumber);
      }
      n64 := n64.(connection := false, authenticated := false, paired := false, terminalPending := true);
      var stopped := StopHost();
    }

    /** Forget the media session, unless its host cannot be stopped. */
    method Reset()
      requires Inv()
      modifies `n64, `hosts
      ensures Inv() && Steady()
      ensures n64.pid == 0 ==> n64 == NO_N64.(ready := old(n64).ready)
      ensures n64.pid != 0 ==> n64 == Suspended(old(n64), roomNumber)
      ensures Told()
    {
      Suspend();
      if n64.pid != 0 { return; }
      n64 := NO_N64.(ready := n64.ready);
    }

    /** Leave the N64 room, unless the host is still there. */
    method FinishLocally()
      requires Inv()
      modifies this
      ensures Inv() && Steady()
      ensures n64.pid != 0 ==> roomNumber == old(roomNumber) && screen == old(screen) && link == old(link)
                               && n64 == Suspended(old(n64), roomNumber)
      ensures n64.pid == 0 ==> roomNumber == 0 && screen == MainMenu && n64 == NO_N64 && hosts == {}
      ensures link == old(link) || link == old(link).(gameEnded := true)
      ensures clients == old(clients) && failures == old(failures)
      ensures Told()
    {
      Reset();
      if n64.pid != 0 { return; }
      roomNumber, readySelf, readyPeer, epoch := 0, false, false, epoch + 1;
      n64 := n64.(ready := false);
      link := link.(gameEnded := true);
      screen := MainMenu;
    }

    // -------------------------------------------------------------- the link client process

    /** Terminate, wait, kill, wait: success means that the client was reaped. */
    method StopClient() returns (ok: bool)
      requires Inv()
      modifies `link, `clients
      ensures Inv() && Steady()
      ensures if !ok || old(link).pid == 0 then link == old(link) && clients == old(clients)
              else link == ClientStopped(old(link)) && clients == {}
      ensures old(link).pid == 0 ==> ok
    {
      if link.pid == 0 { return true; }
      ok := *;
      if ok {
        clients := clients - {link.pid};
        link := link.(pid := 0, started := false, gameEnded := true);
        if link.hostActive { link := link.(hostActive := false); }
      }
    }

    /** Notice an exit of the client; however it ended, its game is over. */
    method MonitorClientExit()
      requires Inv()
      modifies `link, `clients
      ensures Inv() && Steady()
      ensures (link == old(link) && clients == old(clients)) ||
              (old(link).pid != 0 && link == ClientStopped(old(link)) && clients == {})
    {
      if link.pid == 0 { return; }
      var exited: bool := *;
      if !exited { return; }
      clients := clients - {link.pid};
      link := link.(pid := 0, started := false);
      link := link.(hostActive := false, gameEnded := true);
    }

    /** Make another session the current one, unless the old one's client cannot be stopped. */
    method SetSession(session: string)
      requires Inv()
      modifies `link, `clients, `failures
      ensures Inv() && Steady()
      ensures session == "" || session == old(link).session ==> link == old(link) && failures == old(failures)
      ensures session != "" && session != old(link).session ==>
                (link == old(link) && clients == old(clients) && old(link).pid != 0 && failures == old(failures)) ||
                (clients == {} && failures == 0 && link == NO_LINK.(session := session, startRequested := old(link).startRequested))
    {
      if session == "" || link.session == session { return; }
      if link.pid != 0 {
        var ok := StopClient();
        if !ok { return; }
      }
      link := link.(session := session, started := false, preflightBlocked := false, hostActive := false,
                    gameEnded := false, pid := 0);
      failures := 0;
    }

    /** Forget the session, unless its client is still there. */
    method ClearSession()
      requires Inv()
      modifies `link, `clients
      ensures Inv() && Steady()
      ensures link.pid != 0 ==> link == old(link) && clients == old(clients)
      ensures link.pid == 0 ==> clients == {} && (link == NO_LINK || (old(link).session == "" && link == old(link)))
    {
      if link.pid != 0 {
        MonitorClientExit();
        if link.pid != 0 {
          var ok := StopClient();
          if !ok { return; }
        }
      }
      if link.session == "" { return; }
      link := link.(session := "", startRequested := false, started := false, preflightBlocked := false,
                    hostActive := false, gameEnded := false, pid := 0);
    }

    // -------------------------------------------------------------- what the server says

    /** Stop the emulator of the current room, as far as possible. */
    method SessionLost()
      requires Inv()
      modifies `n64, `hosts, `link, `clients
      ensures Inv() && Steady()
      ensures screen.N64Room? ==> n64.terminalPending && !n64.connection && n64.media == old(n64).media && link.gameEnded
      ensures screen.LinkRoom? ==> n64 == old(n64) && (link == old(link) || (link.pid == 0 && link.gameEnded))
    {
      if screen.N64Room? {
        Suspend();
      } else if screen.LinkRoom? && link.pid != 0 {
        var ok := StopClient();
        if !ok { return; }
      }
      link := link.(gameEnded := true);
    }

    /** Three failures in a row, or one authoritative refusal, stop the emulator. */
    method HeartbeatFailed(authoritative: bool)
      requires Inv()
      modifies `failures, `n64, `hosts, `link, `clients
      ensures Inv() && Steady()
      ensures failures == if authoritative then 3 else old(failures) + 1
      ensures failures < 3 ==> n64 == old(n64) && link == old(link)
      ensures failures >= 3 && screen.N64Room? ==> n64.terminalPending && !n64.connection && n64.media == old(n64).media
      ensures failures >= 3 && screen.LinkRoom? ==> n64 == old(n64) && (link == old(link) || (link.pid == 0 && link.gameEnded))
    {
      failures := if authoritative then 3 else failures + 1;
      if failures >= 3 {
        SessionLost();
      }
    }

    /** The link room is over: leave it, unless its client is still there. */
    method LinkRoomOver()
      requires Inv() && screen.LinkRoom?
      modifies this
      ensures Inv() && Steady() && failures == old(failures)
      ensures (screen == old(screen) && roomNumber == old(roomNumber)) || (screen.MainMenu? && roomNumber == 0 && link.pid == 0)
    {
      Reset();
      if link.pid != 0 {
        var ok := StopClient();
        if !ok { return; }
      }
      ToMenu();
    }

    /** The link room is closed once its client is gone. */
    method ToMenu()
      requires Inv() && link.pid == 0
      modifies this
      ensures Inv() && Steady() && failures == old(failures) && screen.MainMenu? && roomNumber == 0 && link.pid == 0
    {
      ClearSession();
      roomNumber, readySelf, readyPeer, epoch := 0, false, false, epoch + 1;
      n64 := n64.(ready := false);
      link := link.(gameEnded := true);
      screen := MainMenu;
    }

    /** The room itself is over. */
    method RoomOver()
      requires Inv() && (screen.LinkRoom? || screen.N64Room?)
      modifies this
      ensures Inv() && Steady() && failures == old(failures)
      ensures screen == old(screen) || (screen.MainMenu? && roomNumber == 0)
      // the room is only left without its process
      ensures screen.MainMenu? ==> if old(screen).N64Room? then n64.pid == 0 else link.pid == 0
      ensures old(screen).N64Room? ==> n64.pid == 0 || (n64.terminalPending && !n64.connection)
    {
      if screen.N64Room? {
        FinishLocally();
      } else {
        LinkRoomOver();
      }
    }

    /** The server found the saves not ready: back to the room, without launching again. */
    method PreflightFailed()
      requires Inv()
      modifies `n64, `hosts, `readySelf, `readyPeer, `epoch
      ensures Inv() && Steady() && n64.preflightFailed && !readySelf && !readyPeer
      ensures n64.pid == 0 ==> n64 == NO_N64.(preflightFailed := true)
      ensures n64.pid != 0 ==> n64.terminalPending && !n64.connection && n64.media == old(n64).media
    {
      Reset();
      readySelf, readyPeer, epoch := false, false, epoch + 1;
      n64 := n64.(preflightFailed := true, ready := false);
    }

    /** The current session is over, and with it its process. */
    method SessionOver(h: Notice)
      requires Inv() && !h.kind.Room? && (screen.LinkRoom? || screen.N64Room?)
      modifies this
      ensures Inv() && Steady() && failures == old(failures)
      ensures screen != old(screen) ==> old(screen).N64Room? && screen.MainMenu? && roomNumber == 0 && n64.pid == 0
      ensures screen == old(screen) ==> roomNumber == old(roomNumber)
      // the host is either gone or no longer connected
      ensures old(screen).N64Room? ==> n64.pid == 0 || (n64.terminalPending && !n64.connection)
      ensures old(screen).LinkRoom? ==> n64 == old(n64) && (link == old(link) || (link.pid == 0 && link.gameEnded))
    {
      if screen.N64Room? && h.kind.MediaSession? && h.preflight {
        PreflightFailed();
        return;
      }
      if screen.N64Room? {
        FinishLocally();
      } else if link.pid != 0 {
        var ok := StopClient();
        if !ok { return; }
      }
      link := link.(gameEnded := true);
    }

    /** The result of a heartbeat or of a direct question about the media session. */
    method HandleHeartbeat(notice: Option<Notice>)
      requires Inv()
      modifies this
      ensures Inv() && Steady() && failures == 0
      // a notice about another session, or one that ends nothing, changes nothing but the failure counter
      ensures notice.None? || Stale(notice.value, old(n64), old(link), old(roomNumber)) || !Ends(notice.value) ==>
                n64 == old(n64) && link == old(link) && screen == old(screen) && roomNumber == old(roomNumber)
                && hosts == old(hosts) && clients == old(clients) && epoch == old(epoch)
                && readySelf == old(readySelf) && readyPeer == old(readyPeer)
      // a room is only left without its process
      ensures screen != old(screen) ==> screen.MainMenu? && roomNumber == 0
      ensures screen != old(screen) ==> if old(screen).N64Room? then n64.pid == 0 else link.pid == 0
      // an end that concerns the N64 room leaves no connected host
      ensures notice.Some? && Ends(notice.value) && !Stale(notice.value, old(n64), old(link), old(roomNumber)) && old(screen).N64Room? ==>
                n64.pid == 0 || (n64.terminalPending && !n64.connection)
    {
      failures := 0;
      if notice.None? { return; }
      var h := notice.value;
      if h.kind.LinkSession? && (h.session == "" || link.session == "" || h.session != link.session) { return; }
      var media := CurrentMedia(n64, roomNumber);
      if h.kind.MediaSession? && (h.session == "" || media == "" || h.session != media) { return; }
      if (h.kind.MediaSession? && h.status.Recovering?) || h.status.Active? { return; }
      if !screen.LinkRoom? && !screen.N64Room? { return; }
      if h.kind.Room? {
        RoomOver();
      } else {
        SessionOver(h);
      }
    }

    // -------------------------------------------------------------- leaving and refreshing

    /** Leave the room by request; it is kept as long as its process or the server does not agree. */
    method Leave()
      requires Inv()
      modifies this
      ensures Inv() && Steady() && failures == old(failures)
      // wherever its host was started, it is told to stop
      ensures Told()
      ensures roomNumber == old(roomNumber) || (roomNumber == 0 && (link.pid == 0 || n64.pid == 0))
      ensures screen == old(screen) || (screen.MainMenu? && roomNumber == 0)
      ensures old(screen).N64Room? && (old(n64).lifecycle != "" || old(n64).media != "") ==>
                (n64.pid == 0 && roomNumber == 0 && screen == MainMenu) ||
                (n64.terminalPending && !n64.connection && roomNumber == old(roomNumber) && screen == old(screen))
    {
      if screen.N64Room? && (n64.lifecycle != "" || n64.media != "") {
        var left := LeaveN64();
        return;
      }
      Reset();
      LeaveLink();
    }

    /** A session is left when its host is stopped and the server has ended it. */
    method LeaveN64() returns (left: bool)
      requires Inv()
      modifies this
      ensures Inv() && Steady() && failures == old(failures) && Told()
      ensures if left then n64.pid == 0 && roomNumber == 0 && screen.MainMenu?
              else n64.terminalPending && !n64.connection && roomNumber == old(roomNumber) && screen == old(screen)
    {
      Suspend();
      if n64.pid != 0 { return false; }
      left := *;
      if left { FinishLocally(); }
    }

    method LeaveLink()
      requires Inv()
      modifies `roomNumber, `readySelf, `readyPeer, `epoch, `link, `clients
      ensures Inv() && Steady()
      ensures roomNumber == old(roomNumber) ||
              (roomNumber == 0 && link == NO_LINK.(hostActive := link.hostActive) && !readySelf && !readyPeer)
    {
      if link.pid != 0 && (!loggedIn || link.session == "") {
        var ok := StopClient();
        if !ok { return; }
      }
      if !loggedIn { return; }
      if link.pid != 0 && link.session != "" {
        var ok := StopClient();
        if !ok { return; }
        var gameStopped: bool := *;
        if !gameStopped { return; }
      }
      var left: bool := *;
      if !left { return; }
      ClearSession();
      epoch, roomNumber, readySelf, readyPeer := epoch + 1, 0, false, false;
      link := link.(session := "", startRequested := false, started := false, preflightBlocked := false,
                    gameEnded := false, pid := 0);
    }

    /** Take over what the server knows about the room: its link session, if it has one. */
    method LoadRoom()
      requires Inv()
      modifies `link, `clients, `failures
      ensures Inv() && Steady()
      ensures roomNumber == 0 ==> link == old(link) && failures == old(failures)
    {
      if roomNumber == 0 { return; }
      var used: bool := *;                   // the game was started and has no session any more
      if used && !screen.N64Room? {
        if link.session != "" { ClearSession(); }
        link := link.(gameEnded := true, startRequested := false);
      }
      var session: string := *;
      if session != "" {
        SetSession(session);
      } else {
        var ended: bool := *;                // not active on the server, or unverifiable for five seconds
        if link.session == "" || link.gameEnded || ended { ClearSession(); }
      }
    }

    /** Ask which room this is; without one the room screen is closed.  The link room is left only without its
        client, the N64 room without a look at its host. */
    method Refresh(answer: RoomAnswer)
      requires Inv()
      modifies this
      ensures Inv() && Steady() && n64 == old(n64)
      ensures old(InRoomScreen()) ==>
                (screen.MainMenu? <==> loggedIn && answer.NoRoom? && (old(screen).LinkRoom? ==> link.pid == 0))
      ensures screen == old(screen) || (old(InRoomScreen()) && screen.MainMenu? && roomNumber == 0)
      ensures !loggedIn || answer.NoAnswer? ==> link == old(link) && roomNumber == old(roomNumber)
      ensures loggedIn && answer.InRoom? && 1 <= answer.number <= ROOMS ==> roomNumber == answer.number
      // the screen of a living host is closed exactly when the server answers that there is no room
      ensures old(screen).N64Room? ==>
                (screen.MainMenu? && n64.pid != 0 <==> loggedIn && answer.NoRoom? && old(n64).pid != 0)
    {
      if !loggedIn { return; }
      if screen.N64Room? { epoch := epoch + 1; }
      if answer.NoAnswer? { return; }
      if answer.InRoom? && 1 <= answer.number <= ROOMS {
        roomNumber := answer.number;
      }
      if !InRoomScreen() { return; }
      if answer.InRoom? {
        TakeRoom();
      } else {
        CloseRoom();
      }
    }

    method TakeRoom()
      requires Inv()
      modifies `link, `clients, `failures, `readySelf, `readyPeer
      ensures Inv() && Steady()
    {
      LoadRoom();
      readySelf, readyPeer := *, *;
    }

    /** There is no room any more. */
    method CloseRoom()
      requires Inv() && InRoomScreen()
      modifies this
      ensures Inv() && Steady() && n64 == old(n64)
      ensures screen.MainMenu? <==> old(screen).N64Room? || link.pid == 0
      ensures screen == old(screen) || (screen.MainMenu? && roomNumber == 0)
    {
      if screen.LinkRoom? {
        if link.pid != 0 {
          var ok := StopClient();
          if !ok { return; }
        }
        ClearSession();
        readySelf, readyPeer, epoch := false, false, epoch + 1;
      }
      screen, roomNumber := MainMenu, 0;
    }

    predicate InRoomScreen()
      reads `screen
    {
      screen.LinkRoom? || screen.N64Room?
    }

    // -------------------------------------------------------------- starting the link client

    /** Start the client of the current session.  A child that cannot be watched is told to stop, and its
        number is dropped whether or not that reaped it: then nobody owns it any more. */
    method StartClient(start: Start) returns (ok: bool)
      requires Inv() && link.session != "" && (reaps ==> start.reaped)
      modifies `link, `clients, `spawned
      ensures Inv() && Owned() && link.session == old(link).session
      ensures ok <==> old(link).pid != 0 || (!start.refused && start.pid != 0 && start.equipped)
      ensures ok ==> link.pid == (if old(link).pid != 0 then old(link).pid else start.pid)
      ensures old(link).pid != 0 ==> ok && link == old(link) && clients == old(clients) && spawned == old(spawned)
      ensures !ok ==> link == if start.refused && start.badSaves then old(link).(preflightBlocked := true) else old(link)
      // a child is given up exactly when it was spawned and neither equipped nor reaped
      ensures spawned.strays == old(spawned).strays <==> old(link).pid != 0 || !Missed(start)
      ensures old(link).pid == 0 && Missed(start) ==> spawned.strays == old(spawned).strays + [start.pid]
    {
      if link.started { return true; }
      if start.refused {
        if start.badSaves { link := link.(preflightBlocked := true); }
        return false;
      }
      if start.pid == 0 { return false; }
      SpawnClient(start.pid);
      if !start.equipped {
        DropClient(start.reaped);
        return false;
      }
      link := link.(started := true, hostActive := true);
      ok := true;
    }

    method SpawnClient(pid: nat)
      requires Inv() && link.pid == 0 && pid != 0
      modifies `link, `clients, `spawned
      ensures link == old(link).(pid := pid) && clients == {pid} && spawned == OneMore(old(spawned))
    {
      clients, spawned := clients + {pid}, OneMore(spawned);
      link := link.(pid := pid);
    }

    /** Terminate the child and forget its number, whatever became of it. */
    method DropClient(reaped: bool)
      requires clients == {link.pid}
      modifies `link, `clients, `spawned
      ensures clients == {} && link == old(link).(pid := 0)
      ensures spawned == if reaped then old(spawned) else old(spawned).(strays := old(spawned).strays + [old(link).pid])
    {
      clients := clients - {link.pid};
      if !reaped {
        spawned := spawned.(strays := spawned.strays + [link.pid]);
      }
      link := link.(pid := 0);
    }

    /** The first start of a session whose child is neither equipped nor reaped: the child lives, and the
        context knows of none. */
    static method UnownedChild(pid: nat) returns (c: RoomContext)
      requires pid != 0
      ensures fresh(c) && c.Inv() && c.link.pid == 0 && c.Living() == multiset{pid}
    {
      c := new RoomContext(true, false, Either);
      c.SetSession("session");
      var ok := c.StartClient(Start(false, false, pid, false, false));
      assert c.spawned.strays == [pid];
    }

    method LaunchHost()
      requires Inv()
      modifies `link, `clients, `spawned
      ensures Inv() && Owned() && link.session == old(link).session
      ensures old(link).pid != 0 ==> link.pid == old(link).pid && spawned == old(spawned)
    {
      if link.session == "" || !loggedIn || link.preflightBlocked { return; }
      var due: bool := *;                    // manifest, preflight and control state
      if due {
        var start: Start := *;
        if reaps { start := start.(reaped := true); }
        var ok := StartClient(start);
      }
    }

    /** Bring the room's link session to life, when there is one or both players are ready for one. */
    method StartRoomSession()
      requires Inv()
      modifies this
      ensures Inv() && Owned() && n64 == old(n64)
      ensures old(roomNumber) == 0 || !loggedIn || old(link).gameEnded ==> link == old(link) && screen == old(screen) && spawned == old(spawned)
    {
      if roomNumber == 0 || !loggedIn || link.gameEnded { return; }
      if link.session != "" {
        var active: bool := *;
        if active {
          LaunchHost();
          return;
        }
        ClearSession();
      }
      var known: string := *;
      var active: bool := *;
      if known != "" && active {
        SetSession(known);
        LaunchHost();
        return;
      }
      var ready: bool := *;
      if !ready || link.startRequested { return; }
      link := link.(startRequested := true);
      var session: string := *;
      var started: bool := *;
      if !started {
        link := link.(startRequested := false);
        return;
      }
      SetSession(session);
      LaunchHost();
      var answer: RoomAnswer := *;
      Refresh(answer);
    }

    /** Enter a link room, unless an earlier client cannot be stopped. */
    method ActivateLinkRoom(room: nat, modeValid: bool)
      requires Inv()
      modifies this
      ensures Inv() && Steady() && n64 == old(n64)
      ensures (screen == old(screen) && roomNumber == old(roomNumber) && (link == old(link) || link == ClientStopped(old(link)))) ||
              (screen == LinkRoom && roomNumber == room && !readySelf && !readyPeer && failures == 0
               && link == NO_LINK.(hostActive := link.hostActive, gameEnded := link.gameEnded))
      ensures !modeValid ==> screen == old(screen)
      ensures modeValid && old(link).pid == 0 ==> screen == LinkRoom
    {
      if link.pid != 0 {
        var ok := StopClient();
        if !ok { return; }
      }
      if !modeValid { return; }
      screen, roomNumber := LinkRoom, room;
      readySelf, readyPeer, failures := false, false, 0;
      link := link.(session := "", startRequested := false, started := false, preflightBlocked := false,
                    gameEnded := false, pid := 0);
      var used: bool := *;
      if used { link := link.(gameEnded := true); }
    }

    // -------------------------------------------------------------- the N64 media session

    /** Ask the server about the media session; true when the answer ended the matter here. */
    method AskLifecycle() returns (over: bool)
      requires Inv()
      modifies this
      ensures Inv() && Steady()
      ensures over ==> !screen.N64Room? || n64.preflightFailed
    {
      over := false;
      var answered: bool := *;
      if answered {
        var notice: Notice := *;
        HandleHeartbeat(Some(notice));
        over := !screen.N64Room? || n64.preflightFailed;
      }
    }

    /** Get a media session from the server and connect to it.  While a host lives it is this session or
        none: an answer with another id puts the old id back and suspends. */
    method RequestMedia(answer: MediaAnswer) returns (ok: bool)
      requires Inv()
      modifies this
      ensures Inv() && spawned == old(spawned) && SameChildren()
      ensures n64.connection && !old(n64).connection ==> PathSafe(n64.media) && n64.authenticated && !n64.paired && ok
      ensures old(Busy()) ==> ok && n64 == old(n64) && link == old(link) && screen == old(screen)
      ensures old(n64).media == "" ==> screen == old(screen) && readySelf == old(readySelf) && readyPeer == old(readyPeer)
      // a first session is connected exactly when its id is safe and every step succeeds
      ensures !old(Busy()) && old(n64).media == "" && !old(n64).reconnecting ==>
                && (n64.connection <==> Connects(answer))
                && (n64.connection ==> n64.media == answer.session && n64.role == answer.role && !n64.preflightFailed)
    {
      if n64.finishPending || n64.terminalPending || n64.preflightFailed || n64.connection { return true; }
      var previous := n64.media;
      if previous != "" {
        var over := AskLifecycle();
        if over { return true; }
      }
      if answer.Denied? {
        n64 := n64.(media := previous);
        if previous != "" {
          var over := AskLifecycle();
          if over { return true; }
        }
        return false;
      }
      ok := TakeSession(previous, answer);
      if ok { ok := Connect(answer); }
    }

    /** Nothing is to be requested now. */
    predicate Busy()
      reads `n64
    {
      n64.finishPending || n64.terminalPending || n64.preflightFailed || n64.connection
    }

    /** A first session can be taken, prepared and connected. */
    predicate Connects(answer: MediaAnswer) {
      answer.Granted? && PathSafe(answer.session) && answer.scope && (answer.role.Host? ==> answer.prepared) && answer.connects
    }

    /** The server's answer: its session id, unless a reconnect asked for another one. */
    method TakeSession(previous: string, answer: MediaAnswer) returns (ok: bool)
      requires Inv() && answer.Granted? && !n64.connection && (n64.pid != 0 ==> n64.media == previous && n64.reconnecting)
      modifies `n64, `hosts
      ensures Inv() && spawned == old(spawned) && SameChildren() && !n64.connection
      ensures ok ==> PathSafe(n64.media) && n64.pid == old(n64).pid && n64.lifecycle == n64.media
      // a reconnect never ends with another id
      ensures old(n64).reconnecting ==> n64.media == previous
      ensures !old(n64).reconnecting ==>
                && (ok <==> PathSafe(answer.session) && answer.scope)
                && n64.media == (if PathSafe(answer.session) then answer.session else "")
                && n64.role == answer.role && !n64.reconnecting && n64.preflightFailed == old(n64).preflightFailed
    {
      if n64.reconnecting && previous != answer.session {
        RefuseOther(previous, answer.role);
        return false;
      }
      AdoptSession(answer.session, answer.role);
      ok := PathSafe(answer.session) && answer.scope;
    }

    method AdoptSession(session: string, role: Role)
      requires Inv() && !n64.connection && (n64.pid != 0 ==> n64.media == session && n64.reconnecting)
      modifies `n64
      ensures Inv() && SameChildren()
      ensures n64 == old(n64).(media := n64.media, role := role, lifecycle := session, lifecycleRoom := roomNumber)
      ensures n64.media == if PathSafe(session) || n64.reconnecting then session else ""
    {
      n64 := n64.(media := if PathSafe(session) || n64.reconnecting then session else "", role := role,
                  lifecycle := session, lifecycleRoom := roomNumber);
    }

    method RefuseOther(previous: string, role: Role)
      requires Inv() && (n64.pid != 0 ==> n64.media == previous)
      modifies `n64, `hosts
      ensures Inv() && SameChildren() && n64.media == previous && !n64.connection && n64.terminalPending
    {
      n64 := n64.(media := previous, role := role);
      Suspend();
    }

    /** Prepare the input file and connect to the relay. */
    method Connect(answer: MediaAnswer) returns (ok: bool)
      requires Inv() && answer.Granted? && !n64.connection && PathSafe(n64.media) && (n64.pid != 0 ==> n64.reconnecting)
      modifies `n64
      ensures Inv() && SameChildren()
      ensures ok <==> n64.connection
      ensures ok <==> answer.connects && (!old(n64).reconnecting && old(n64).role.Host? ==> answer.prepared)
      ensures n64.role == old(n64).role && n64.preflightFailed == old(n64).preflightFailed
      ensures ok ==> n64.media == old(n64).media && n64.authenticated && !n64.paired
      ensures !ok && old(n64).reconnecting ==> n64 == old(n64)
      ensures !ok && !old(n64).reconnecting ==> n64.media == "" || n64.media == old(n64).media
    {
      var input := n64.inputPath;
      if !n64.reconnecting && n64.role.Host? {
        if !answer.prepared { return false; }
        input := true;
      }
      ok := answer.connects;
      if ok {
        n64 := n64.(inputPath := input, connection := true, authenticated := true, paired := false);
      } else if !n64.reconnecting {
        n64 := n64.(inputPath := false, media := "");
      }
    }

    /** The transport was lost: keep the host and its session, and connect again later. */
    method Reconnect()
      requires Inv()
      modifies this
      ensures Inv() && spawned == old(spawned)
      ensures n64.pid != 0 ==> n64.pid == old(n64).pid && n64.media == old(n64).media && n64.launched == old(n64).launched
      ensures screen.N64Room? && !n64.preflightFailed ==> !n64.connection && n64.reconnecting
      ensures link.pid != 0 ==> link.pid == old(link).pid && link.session == old(link).session
    {
      var over := AskLifecycle();
      if over { return; }
      n64 := n64.(reconnecting := true, connection := false, paired := false, authenticated := false);
    }

    /** Spawn the host for the current session; without its SAV sender it is stopped again. */
    method StartHost(start: Start) returns (ok: bool)
      requires Inv() && n64.pid == 0 && n64.paired && !n64.preflightFailed
      modifies `n64, `hosts, `spawned
      ensures Inv() && n64.connection && n64.paired && n64.media == old(n64).media
      ensures n64.preflightFailed ==> n64.pid == 0 && !ok
      ensures ok <==> !start.refused && PathSafe(n64.media) && start.pid != 0 && start.equipped
      ensures ok ==> n64.pid == start.pid && n64.launched == n64.media && spawned == OneMore(old(spawned))
      ensures n64.preflightFailed <==> start.refused && start.badSaves
      ensures (spawned == old(spawned) && n64.pid == 0) || spawned == OneMore(old(spawned))
    {
      if start.refused {
        if start.badSaves { n64 := n64.(preflightFailed := true); }
        return false;
      }
      if !PathSafe(n64.media) || start.pid == 0 { return false; }
      Spawn(start.pid);
      ok := start.equipped;
      if !ok { var stopped := StopHost(); }
    }

    method Spawn(pid: nat)
      requires Inv() && n64.pid == 0 && pid != 0 && n64.connection && n64.media != ""
      modifies `n64, `hosts, `spawned
      ensures Inv() && spawned == OneMore(old(spawned))
      ensures n64 == old(n64).(pid := pid, stopFile := true, launched := old(n64).media)
    {
      hosts, spawned := hosts + {pid}, OneMore(spawned);
      n64 := n64.(pid := pid, stopFile := true, launched := n64.media);
    }

    /** Saves that cannot be used end the session; nothing was launched for it. */
    method RejectPreflight(confirmed: bool)
      requires Inv() && n64.pid == 0 && n64.preflightFailed
      modifies `n64, `hosts, `readySelf, `readyPeer, `epoch
      ensures Inv() && spawned == old(spawned) && n64.pid == 0 && n64.preflightFailed && !n64.connection && !n64.terminalPending
      // the id is kept exactly when the server did not confirm
      ensures n64.media == if confirmed then "" else old(n64).media
    {
      Suspend();
      n64 := n64.(terminalPending := false, ready := false);
      readySelf, readyPeer, epoch := false, false, epoch + 1;
      if confirmed { Reset(); }
      n64 := n64.(preflightFailed := true);
    }

    /** A paired host session, ready to be started. */
    predicate Waiting()
      reads `n64
    {
      n64.paired && n64.role.Host? && !n64.preflightFailed && PathSafe(n64.media)
    }

    /** Start the host once, for a paired host session that has none. */
    method MaybeStartHost(wait: bool, start: Start) returns (ok: bool)
      requires Inv()
      modifies `n64, `hosts, `spawned, `readySelf, `readyPeer, `epoch
      ensures Inv() && Owned()
      // never a second process beside a living one
      ensures old(n64).pid != 0 ==> n64 == old(n64) && hosts == old(hosts) && spawned == old(spawned)
      ensures spawned != old(spawned) ==> old(n64).paired && old(n64).role.Host? && spawned == OneMore(old(spawned))
      ensures !n64.preflightFailed ==> n64.connection == old(n64).connection
      ensures old(n64).pid == 0 && old(Waiting()) && !wait && Succeeds(start) ==> n64.pid == start.pid
    {
      if n64.preflightFailed { return false; }
      if !n64.paired || !n64.role.Host? { return true; }
      if n64.launched == n64.media { return true; }
      if n64.pid != 0 { return false; }
      if wait { return false; }
      ok := StartHost(start);
      if !ok && n64.preflightFailed {
        var confirmed: bool := *;
        RejectPreflight(confirmed);
      }
    }

    /** Look after the host process: its end finishes the session or leaves the room. */
    method PollHost()
      requires Inv()
      modifies this
      ensures Inv() && Steady()
      ensures old(n64).pid == 0 && !old(n64).finishPending ==>
                && n64 == old(n64) && link == old(link) && screen == old(screen) && roomNumber == old(roomNumber)
                && readySelf == old(readySelf) && readyPeer == old(readyPeer)
    {
      if n64.finishPending {
        FinishSession();
        return;
      }
      if n64.pid == 0 { return; }
      var exited: bool := *;
      if !exited { return; }
      HostExited();
    }

    method HostExited()
      requires Inv() && n64.pid != 0
      modifies this
      ensures Inv() && Steady() && n64.pid == 0
    {
      var clean: bool := *;
      HostGone(clean);
      if clean {
        FinishSession();                     // the same poll once more, now with the finish pending
      } else {
        LeaveToMenu();
      }
    }

    /** Leave the room; once it is left the main menu is shown. */
    method LeaveToMenu()
      requires Inv()
      modifies this
      ensures Inv() && Steady()
      ensures screen == old(screen) || (screen.MainMenu? && roomNumber == 0)
    {
      Leave();
      if roomNumber == 0 { screen := MainMenu; }
    }

    /** The host was reaped; a clean exit has to be reported. */
    method HostGone(clean: bool)
      requires Inv() && n64.pid != 0
      modifies `n64, `hosts
      ensures Inv() && Steady()
      ensures n64 == HostStopped(old(n64)).(finishPending := old(n64).finishPending || clean)
    {
      hosts := hosts - {n64.pid};
      n64 := n64.(pid := 0, launched := "", stopFile := false, finishPending := n64.finishPending || clean);
    }

    /** Tell the server that the host has finished, until it says so itself. */
    method FinishSession()
      requires Inv() && n64.finishPending
      modifies this
      ensures Inv() && Steady() && (old(n64).pid == 0 ==> n64.pid == 0)
    {
      var due: bool := *;
      if !due { return; }
      var finished: bool := *;
      if !finished {
        var over := AskLifecycle();
        return;
      }
      HandleHeartbeat(Some(Notice(MediaSession, n64.media, Completed, false)));
    }

    /** One turn of the media transport. */
    method PollTransport()
      requires Inv()
      modifies this
      ensures Inv() && Owned()
      ensures old(n64).preflightFailed ==> n64 == old(n64) && link == old(link) && screen == old(screen)
      // without a host, a connection lasts no longer than both players are ready
      ensures old(Stranded()) ==>
                n64 == Suspended(old(n64), roomNumber) || n64 == HostStopped(Suspended(old(n64), roomNumber))
    {
      if n64.preflightFailed { return; }
      PollHost();
      if !screen.N64Room? || n64.preflightFailed || n64.finishPending || n64.terminalPending { return; }
      if (!readySelf || !readyPeer) && n64.connection {
        Suspend();
        return;
      }
      if !n64.connection {
        var due: bool := *;
        if readySelf && readyPeer && due {
          var answer: MediaAnswer := *;
          var ok := RequestMedia(answer);
        }
        return;
      }
      if !n64.paired {
        var status: int, wait: bool, start: Start := *, *, *;
        PollPairing(status, wait, start);
        return;
      }
      PollPaired();
    }

    /** Connected, without a host, while one of the players is not ready. */
    predicate Stranded()
      reads this
    {
      && screen.N64Room? && n64.connection && n64.pid == 0 && !(readySelf && readyPeer)
      && !n64.preflightFailed && !n64.finishPending && !n64.terminalPending
    }

    method PollPairing(status: int, wait: bool, start: Start)
      requires Inv() && n64.connection && !n64.paired && !n64.preflightFailed
      modifies this
      ensures Inv() && Owned()
      ensures status > 0 ==> screen == old(screen)
      ensures status > 0 && old(n64).pid == 0 && old(n64).role.Host? && PathSafe(old(n64).media) && !wait && Succeeds(start) ==>
                n64.pid == start.pid
    {
      if status > 0 {
        n64 := n64.(reconnecting := false, paired := true);
        if n64.role.Host? {
          var ok := MaybeStartHost(wait, start);
        }
      } else if status < 0 {
        Reconnect();
      }
    }

    method PollPaired()
      requires Inv() && n64.connection && n64.paired && !n64.preflightFailed
      modifies this
      ensures Inv() && Owned()
    {
      if !n64.role.Remote? {
        var wait: bool, start: Start := *, *;
        var ok := MaybeStartHost(wait, start);
        if n64.preflightFailed { return; }
        var broken: bool := *;               // the input file could not be written for too long
        if broken {
          Reset();
          return;
        }
      }
      var lost: bool := *;
      if lost { Reconnect(); }
    }

    /** The room's screen, without what an earlier session left. */
    method EnterN64(room: nat)
      requires Inv()
      modifies this
      ensures Inv() && Steady() && Told() && screen.N64Room?
      ensures if n64.pid == 0 then n64 == NO_N64 else n64.terminalPending && !n64.connection && n64.media == old(n64).media
    {
      roomNumber, failures := room, 0;
      n64 := n64.(ready := false);
      Reset();
      screen := N64Room;
    }

    /** Enter an N64 room: whatever an earlier session left is forgotten first, if possible.  The server is
        asked for the room once, and up to two times more when the selection is synchronised. */
    method ActivateN64(room: nat, answer: RoomAnswer, second: RoomAnswer, third: RoomAnswer)
      requires Inv()
      modifies this
      ensures Inv() && Steady() && Told()
      ensures if n64.pid == 0 then n64 == NO_N64 else n64.terminalPending && !n64.connection && n64.media == old(n64).media
      ensures screen.N64Room? || screen.MainMenu?
      ensures loggedIn && answer.NoRoom? ==> screen.MainMenu?
      ensures !answer.NoRoom? && !second.NoRoom? && !third.NoRoom? ==> screen.N64Room?
    {
      EnterN64(room);
      Refresh(answer);
      var accepted: bool := *;
      SyncRoom(accepted, second, third);
    }

    /** A host that cannot be stopped outlives its room: it was started in one, and when the next one is
        entered the server has none any more. */
    static method HostOutlivesRoom(pid: nat) returns (c: RoomContext)
      requires pid != 0
      ensures fresh(c) && c.Inv() && c.screen.MainMenu? && c.n64.pid == pid && c.hosts == {pid}
    {
      c := new RoomContext(true, true, Refuses);
      c.ActivateN64(65, InRoom(65), InRoom(65), InRoom(65));
      assert c.screen.N64Room? && c.n64 == NO_N64;
      var ok := c.RequestMedia(Granted("session", Host, true, true, true));
      c.PollPairing(1, false, Start(false, false, pid, true, true));
      assert c.screen.N64Room? && c.n64.pid == pid;
      c.ActivateN64(66, NoRoom, NoRoom, NoRoom);
    }

    // -------------------------------------------------------------- the keys of the N64 room

    /** The game runs, here or on the other side of a paired connection. */
    predicate RuntimeActive()
      reads this
    {
      screen.N64Room? && (n64.paired || n64.pid != 0)
    }

    /** Tell the server what is selected; what it then says about the room is taken over. */
    method SyncRoom(accepted: bool, first: RoomAnswer, second: RoomAnswer)
      requires Inv()
      modifies this
      ensures Inv() && Steady() && n64 == old(n64)
      ensures screen == old(screen) || screen.MainMenu?
      ensures !first.NoRoom? && !second.NoRoom? ==> screen == old(screen)
    {
      var unknown: bool := *;                // which of the two players this is
      if unknown { Refresh(first); }
      if accepted { Refresh(second); }
    }

    /** Not READY any more, or READY was refused: the session is forgotten. */
    method NotReady()
      requires Inv() && n64.pid == 0
      modifies `n64, `hosts
      ensures Inv() && Steady() && n64 == NO_N64
    {
      n64 := n64.(ready := false);
      Reset();
    }

    /** READY, or no longer READY.  This key alone clears the mark of a failed preflight without forgetting
        the session: it is a new attempt, with the session that was kept. */
    method ReadyKey(saves: bool, accepted: bool, answer: MediaAnswer) returns (asked: bool)
      requires Inv() && n64.pid == 0 && !n64.terminalPending && !n64.finishPending
      modifies this
      ensures Inv() && spawned == old(spawned) && SameChildren()
      ensures old(n64).ready || !saves || !accepted ==> n64 == NO_N64 && !asked
      // the attempt waits for the other player and keeps what there was
      ensures !old(n64).ready && saves && accepted && !asked ==> n64 == old(n64).(ready := true, preflightFailed := false)
      // a session is asked for, also after a failed preflight
      ensures asked && old(n64).media == "" && !old(n64).connection && !old(n64).reconnecting ==>
                && readySelf && readyPeer && (n64.connection <==> Connects(answer))
                && (n64.connection ==> n64.media == answer.session && n64.role == answer.role)
      ensures n64.connection && !old(n64).connection ==> PathSafe(n64.media) && !n64.paired
    {
      var next := !n64.ready;
      if next && !saves {
        NotReady();
        return false;
      }
      var first: RoomAnswer, second: RoomAnswer := *, *;
      SyncRoom(accepted, first, second);
      if !accepted || !next {
        NotReady();
        return false;
      }
      n64 := n64.(ready := true, preflightFailed := false);
      asked := readySelf && readyPeer;
      if asked {
        var ok := RequestMedia(answer);
      }
    }

    /** Another ROM: whatever session there was belonged to the old choice. */
    method TurnSlot(candidates: nat, accepted: bool)
      requires Inv() && n64.pid == 0
      modifies this
      ensures Inv() && Steady() && n64 == if candidates == 0 then old(n64) else NO_N64
    {
      if candidates > 0 { NotReady(); }
      var first: RoomAnswer, second: RoomAnswer := *, *;
      SyncRoom(accepted, first, second);
    }

    /** Escape while the end of a session is not confirmed yet: ask the server once more. */
    method ConfirmEnd(confirmed: bool)
      requires Inv()
      modifies this
      ensures Inv() && Steady()
      ensures if old(n64).pid == 0 && !old(RuntimeActive()) && confirmed
              then n64 == NO_N64 && roomNumber == 0 && screen == MainMenu
              else n64 == old(n64) && link == old(link) && roomNumber == old(roomNumber) && screen == old(screen)
    {
      if n64.pid == 0 && !RuntimeActive() && confirmed {
        FinishLocally();
      }
    }

    /** A key in the N64 room: while an end is pending only Escape counts, and while the game runs none. */
    method RoomKeyPressed(key: RoomKey, confirmed: bool, answer: MediaAnswer)
      requires Inv() && screen.N64Room?
      modifies this
      ensures Inv() && spawned == old(spawned) && SameChildren()
      ensures (if old(Pending()) then !key.Escape? else old(RuntimeActive())) ==>
                n64 == old(n64) && link == old(link) && screen == old(screen) && roomNumber == old(roomNumber)
      ensures old(Pending()) && !confirmed ==> n64 == old(n64) && screen == old(screen) && roomNumber == old(roomNumber)
      ensures old(Pending()) && key.Escape? && confirmed && !old(RuntimeActive()) ==> n64 == NO_N64 && screen == MainMenu
      // otherwise READY and the ROM rows begin anew, and Escape leaves
      ensures !old(Pending()) && !old(RuntimeActive()) ==>
                match key
                case Escape => screen == old(screen) || (screen.MainMenu? && roomNumber == 0)
                case Return => old(n64).ready || !confirmed ==> n64 == NO_N64
                case Turn => n64 == old(n64) || n64 == NO_N64
    {
      if Pending() {
        if key.Escape? { ConfirmEnd(confirmed); }
        return;
      }
      if RuntimeActive() { return; }
      var saves: bool, candidates: nat := *, *;
      match key
      case Escape => LeaveToMenu();
      case Return => var asked := ReadyKey(saves, confirmed, answer);
      case Turn => TurnSlot(candidates, confirmed);
    }

    /** The end of a session is still to be agreed on with the server. */
    predicate Pending()
      reads `n64
    {
      n64.finishPending || n64.terminalPending
    }

    // -------------------------------------------------------------- any sequence of events

    /** Whatever happens, in whatever order and however often: there is never more than one child of each
        kind beside those given up, a living child's session id is the one it was started for, and every
        living child is owned exactly when no start gave one up. */
    method Events(count: nat)
      requires Inv()
      modifies this
      ensures Inv()
      ensures Owned()
      ensures Living() == Child(link.pid) <==> spawned.strays == []
    {
      var left := count;
      while left > 0
        invariant Inv() && Owned()
      {
        var event: int := *;
        if event < 8 { Event(event); } else { ServerEvent(event); }
        left := left - 1;
      }
      Ownership(link, clients, spawned);
    }

    /** What the user does, and the turns of the main loop. */
    method Event(event: int)
      requires Inv()
      modifies this
      ensures Inv() && Owned()
    {
      var room: nat, answers: (RoomAnswer, RoomAnswer, RoomAnswer) := *, *;
      var flag: bool := *;
      if event == 0 { PollTransport(); }
      else if event == 1 { Leave(); }
      else if event == 2 { ActivateN64(room, answers.0, answers.1, answers.2); }
      else if event == 3 { ActivateLinkRoom(room, flag); }
      else if event == 4 { StartRoomSession(); }
      else if event == 5 { MonitorClientExit(); }
      else if event == 6 { LeaveToMenu(); }
      else if event == 7 && screen.N64Room? {
        var key: RoomKey := *;
        var media: MediaAnswer := *;
        RoomKeyPressed(key, flag, media);
      }
    }

    /** What the server says. */
    method ServerEvent(event: int)
      requires Inv()
      modifies this
      ensures Inv() && Owned()
    {
      var text: string := *;
      var flag: bool := *;
      var notice: Notice, answer: RoomAnswer := *, *;
      if event == 8 { HandleHeartbeat(Some(notice)); }
      else if event == 9 { HeartbeatFailed(flag); }
      else if event == 10 { Refresh(answer); }
      else if event == 11 { SetSession(text); }
      else if event == 12 { ClearSession(); }
      else if event == 13 { readySelf := flag; }
      else if event == 14 { readyPeer := flag; }
    }
  }

  /** All living clients are the one the context knows exactly when none was given up. */
  lemma Ownership(l: Link, clients: set<nat>, spawned: Spawned)
    requires LinkOk(l, clients)
    ensures multiset(clients) + multiset(spawned.strays) == Child(l.pid) <==> spawned.strays == []
  {
  }
}
