/**
 * j1939acd as a program: the global address table and state, updated in place
 * by each message and timer. Its methods do what AddressClaim describes.
 */
module AddressDaemon {
  import opened AddressClaim

  class Acd {
    const name: nat
    /** addr[].name and the F_USE bit of addr[].flags. */
    const addr: array<nat>
    const use: array<bool>
    var currentSa: nat
    var lastSa: nat
    var state: State
    var alarm: bool
    var running: bool
    ghost var since: nat
    ghost var rx: nat
    ghost var seen: bool

    ghost predicate Valid()
      reads this
    {
      addr.Length == IDLE_ADDR && use.Length == IDLE_ADDR
    }

    /** The daemon as AddressClaim sees it. */
    ghost function View(): (d: Daemon)
      requires Valid()
      reads this, addr, use
      ensures WellFormed(d)
    {
      Daemon(name, use[..], addr[..], currentSa, lastSa, state, alarm, running, since, rx, seen)
    }

    constructor (name: nat, range: set<nat>, sa: nat)
      ensures Valid() && fresh(addr) && fresh(use)
      ensures View().state == Closed && View().running && !View().alarm && !View().seen
      ensures View().name == name && View().bound == NO_ADDR && View().rx == 0 == View().since
      ensures forall j :: 0 <= j < IDLE_ADDR ==> View().names[j] == 0 && View().use[j] == (j in range)
      ensures View().current == if sa < IDLE_ADDR && sa !in range then IDLE_ADDR else sa
    {
      this.name := name;
      addr := new nat[IDLE_ADDR](i => 0);
      use := new bool[IDLE_ADDR](i => i in range);
      currentSa := if sa < IDLE_ADDR && sa !in range then IDLE_ADDR else sa;
      lastSa, state, alarm, running := NO_ADDR, Closed, false, true;
      since, rx, seen := 0, 0, false;
    }

    /** lookup_name() */
    method LookupName(n: nat) returns (j: nat)
      requires Valid()
      ensures j == LookupFrom(addr[..], n, 0)
    {
      j := 0;
      ghost var names := addr[..];
      while j < IDLE_ADDR
        invariant j <= IDLE_ADDR && LookupFrom(names, n, 0) == LookupFrom(names, n, j)
      {
        if addr[j] == n { return; }
        j := j + 1;
      }
    }

    /** The first scan of choose_new_sa(). */
    method ScanFree(ghost d: Daemon) returns (j: nat)
      requires Valid() && d == View()
      ensures j == FirstFree(d, 0)
    {
      j := 0;
      while j < IDLE_ADDR
        invariant j <= IDLE_ADDR && FirstFree(d, 0) == FirstFree(d, j)
      {
        if use[j] && (addr[j] == 0 || addr[j] == name) { return; }
        j := j + 1;
      }
    }

    /** The second scan, which wraps around the end of the table. */
    method ScanBeatable(ghost d: Daemon, sa: nat) returns (r: nat)
      requires Valid() && d == View()
      ensures r == NextBeatable(d, sa + 1, IDLE_ADDR)
    {
      ghost var wanted := NextBeatable(d, sa + 1, IDLE_ADDR);
      var j: nat, cnt: nat := sa + 1, 0;
      while cnt < IDLE_ADDR
        invariant cnt <= IDLE_ADDR && wanted == NextBeatable(d, j, IDLE_ADDR - cnt)
      {
        if j >= IDLE_ADDR {
          j := 0;
        }
        if use[j] && name < addr[j] { return j; }
        j, cnt := j + 1, cnt + 1;
      }
      return IDLE_ADDR;
    }

    /** choose_new_sa() */
    method ChooseSa(sa: nat) returns (r: nat)
      requires Valid()
      ensures r == ChooseNewSa(View(), sa)
    {
      ghost var d := View();
      if sa < IDLE_ADDR && use[sa] {
        if addr[sa] == 0 || addr[sa] == name || addr[sa] > name { return sa; }
      }
      r := ScanFree(d);
      if r == IDLE_ADDR {
        r := ScanBeatable(d, sa);
      }
    }

    /** claim_address(), with the retry timer its callers arm when it fails. */
    method Claim(sa: nat, ok: bool) returns (sent: seq<Frame>)
      requires Valid()
      modifies this`lastSa, this`alarm
      ensures Effect(View(), sent) == ClaimAddress(old(View()), sa, ok)
    {
      lastSa := sa;
      if ok {
        sent := [Frame.Claim(name, sa)];
      } else {
        sent := [];
        alarm := true;
      }
    }

    /** The code after the main loop. */
    method Shutdown(ok: bool) returns (sent: seq<Frame>)
      requires Valid()
      modifies this`lastSa, this`alarm, this`running
      ensures Effect(View(), sent) == Leave(old(View()), ok)
    {
      sent := Claim(IDLE_ADDR, ok);
      running := false;
    }

    /** The pending timer runs out: an address is chosen and claimed. */
    method ClaimFirst(ok: bool) returns (sent: seq<Frame>)
      requires Valid() && state == ReqPending && alarm
      modifies this`lastSa, this`alarm, this`running, this`state
      ensures Effect(View(), sent) == Wake(old(View()), ok)
    {
      var sa := ChooseSa(currentSa);
      alarm := false;
      if sa == IDLE_ADDR {
        running := false;
        return [];
      }
      state := Operational;
      sent := Claim(sa, ok);
    }

    /** The switch on the state at the top of the main loop. */
    method OnWake(ok: bool) returns (sent: seq<Frame>)
      requires Valid()
      modifies this`lastSa, this`alarm, this`running, this`state
      ensures Effect(View(), sent) == Wake(old(View()), ok)
    {
      sent := [];
      if state == Initial {
        if ok {
          sent := [Request];
          state := ReqSent;
        } else {
          running := false;
        }
      } else if state == ReqPending {
        if alarm {
          sent := ClaimFirst(ok);
        }
      } else if state == Operational {
        if alarm {
          alarm := false;
          sent := Claim(lastSa, ok);
        }
      }
    }

    /** Enters a claim in the table. */
    method RecordClaim(f: Frame)
      requires Valid() && f.Claim?
      modifies addr
      ensures View() == old(View()).(names := Record(old(addr[..]), f))
    {
      ghost var was := addr[..];
      var sa := LookupName(f.name);
      if sa != f.addr && sa < IDLE_ADDR {
        addr[sa] := 0;
      }
      if f.addr < IDLE_ADDR {
        addr[f.addr] := f.name;
      }
      assert addr[..] == Record(was, f);
    }

    /** Another NAME claims the current address. */
    method OnCollision(f: Frame, ok: bool) returns (sent: seq<Frame>)
      requires Valid() && f.Claim?
      modifies this`lastSa, this`alarm, this`running, this`currentSa
      ensures Effect(View(), sent) == Contend(old(View()), f, ok)
    {
      var sa := f.addr;
      if name > f.name {
        sa := ChooseSa(sa);
        if sa == IDLE_ADDR {
          currentSa := sa;
          sent := Shutdown(ok);
          return;
        }
      }
      sent := Claim(sa, ok);
    }

    method OnClaim(f: Frame, ok: bool) returns (sent: seq<Frame>)
      requires Valid() && f.Claim?
      modifies this`lastSa, this`alarm, this`running, this`currentSa, this`seen, addr
      ensures Effect(View(), sent) == ReceiveClaim(old(View()), f, ok)
    {
      RecordClaim(f);
      sent := [];
      if f.addr < IDLE_ADDR {
        if name == f.name {
          currentSa, seen := f.addr, true;
        } else if f.addr == currentSa {
          sent := OnCollision(f, ok);
        }
      }
    }

    /** The switch on the message at the bottom of the main loop. */
    method OnReceive(f: Frame, ok: bool) returns (sent: seq<Frame>)
      requires Valid()
      modifies this`lastSa, this`alarm, this`running, this`currentSa, this`seen, this`state, addr
      ensures Effect(View(), sent) == Receive(old(View()), f, ok)
    {
      sent := [];
      match f {
        case Request =>
          if state == ReqSent {
            alarm := true;
            state := ReqPending;
          } else if state == Operational {
            sent := Claim(currentSa, ok);
          }
        case Claim(_, _) =>
          sent := OnClaim(f, ok);
        case Commanded(n, sa) =>
          if n == name {
            sent := Claim(sa, ok);
          }
      }
    }
  }
}
