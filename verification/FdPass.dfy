/** Descriptor passing: ptytty::send_fd and ptytty::recv_fd of src/fdpass.C. */
module FdPass {
  import opened Os
  import opened Wrappers

  const SOL_SOCKET := 1
  const SCM_RIGHTS := 1

  /** The layout of a control message: CMSG_LEN (n) is hdr + n, CMSG_SPACE (sizeof (int)) is hdr + room, for any header
      padding and any alignment of the payload. */
  datatype Layout = Layout(hdr: nat, room: nat)

  ghost predicate Sane(l: Layout) {
    l.room >= 4
  }

  function Len(l: Layout, n: nat): nat {
    l.hdr + n
  }

  function Space(l: Layout): nat {
    l.hdr + l.room
  }

  /** The first control message as it lies in the receive buffer: cmsg_len is whatever the system claims, the payload is
      as many ints as fit in the buffer. */
  datatype Control = Control(level: int, kind: int, len: nat, payload: seq<int>)

  datatype Received = Failure | Message(data: int, control: Control) | Plain(data: int)

  /** The ints of the payload that the (clamped) length covers. */
  function Covered(l: Layout, len: nat): nat {
    var n := if len > Space(l) then Space(l) else len;
    if n < l.hdr then 0 else (n - l.hdr) / 4
  }

  /** They are those that end within the length claimed and within the buffer. */
  lemma CoveredExactly(l: Layout, len: nat, k: nat)
    ensures k < Covered(l, len) <==> Len(l, 4 * (k + 1)) <= len && Len(l, 4 * (k + 1)) <= Space(l)
  {
  }

  ghost predicate IsRights(l: Layout, c: Control) {
    c.level == SOL_SOCKET && c.kind == SCM_RIGHTS && Covered(l, c.len) >= 1
  }

  /** What the system guarantees about a received message: the payload fits the buffer, and the descriptors that
      arrived are open and different. */
  ghost predicate Delivered(l: Layout, r: Received, fds: map<int, File>) {
    r.Message? ==>
      && |r.control.payload| == l.room / 4
      && (IsRights(l, r.control) ==>
            var k := Covered(l, r.control.len);
            && (forall i :: 0 <= i < k ==> r.control.payload[i] in fds)
            && (forall i, j :: 0 <= i < j < k ==> r.control.payload[i] != r.control.payload[j]))
  }

  ghost function Arrived(l: Layout, r: Received): (s: set<int>)
    requires r.Message? && |r.control.payload| == l.room / 4
  {
    var k := Covered(l, r.control.len);
    assert k <= l.room / 4;
    set i | 0 <= i < k :: r.control.payload[i]
  }

  /** recv_fd: whatever arrives, at most one descriptor is kept, the first one, and every other one is closed once;
      with a nonzero data byte none is kept. Whatever length is claimed, those are all that end within it and within the
      buffer. */
  method RecvFd(p: Process, l: Layout, haveMemory: bool, r: Received) returns (fd: int)
    requires p.Valid() && Sane(l) && Delivered(l, r, p.fds)
    modifies p
    ensures p.Valid()
    ensures haveMemory && r.Message? && IsRights(l, r.control) ==>
              fd == (if r.data == 0 then r.control.payload[0] else -1)
              && p.fds == old(p.fds) - (Arrived(l, r) - {fd})
    ensures !(haveMemory && r.Message? && IsRights(l, r.control)) ==> fd == -1 && p.fds == old(p.fds)
    ensures haveMemory && r.Message? && r.control.level == SOL_SOCKET && r.control.kind == SCM_RIGHTS ==>
              forall k: nat :: k < |r.control.payload| && l.hdr + 4 * (k + 1) <= r.control.len ==>
                if k == 0 && r.data == 0 then fd == r.control.payload[0] && fd in p.fds
                else r.control.payload[k] !in p.fds
  {
    if !haveMemory {
      return -1;
    }
    var data := 1;
    fd := -1;
    if r.Message? || r.Plain? {
      data := r.data;
    }
    if r.Message? {
      var cmsg := r.control;
      var len := cmsg.len;
      if len > Space(l) {
        len := Space(l);
      }
      if cmsg.level == SOL_SOCKET && cmsg.kind == SCM_RIGHTS && len >= Len(l, 4) {
        ghost var k := Covered(l, r.control.len);
        assert k == (len - l.hdr) / 4 && 1 <= k <= |cmsg.payload|;
        fd := 1;
        while len >= Len(l, 4 * (fd + 1))
          invariant 1 <= fd <= k && p.Valid()
          invariant p.fds == old(p.fds) - set i | 1 <= i < fd :: cmsg.payload[i]
          decreases k - fd
        {
          p.Close(cmsg.payload[fd]);
          fd := fd + 1;
        }
        assert fd == k;
        fd := cmsg.payload[0];
      }
    }
    if data != 0 {
      p.Close(fd);
      fd := -1;
    }
  }

  /** A message on its way: the data byte and the attached files. */
  datatype InFlight = InFlight(data: int, files: seq<File>)

  /** send_fd. The system refuses a descriptor that is not open. */
  method SendFd(p: Process, haveMemory: bool, socketOk: bool, fd: int) returns (sent: bool, m: Option<InFlight>)
    ensures sent == m.Some?
    ensures sent <==> haveMemory && socketOk && fd in p.fds
    ensures sent ==> m.value == InFlight(0, [p.fds[fd]])
  {
    if !haveMemory || !socketOk || fd !in p.fds {
      return false, None;
    }
    return true, Some(InFlight(0, [p.fds[fd]]));
  }

  /** recvmsg: as many of the files as the buffer has room for get new descriptors, the rest are discarded. Some systems
      then claim the length of the whole message, beyond the buffer. */
  method Deliver(p: Process, l: Layout, m: InFlight, overclaims: bool) returns (r: Received)
    requires p.Valid() && Sane(l)
    modifies p
    ensures p.Valid() && Delivered(l, r, p.fds)
    ensures m.files == [] ==> r == Plain(m.data) && p.fds == old(p.fds)
    ensures m.files != [] ==>
              && r.Message? && r.data == m.data && IsRights(l, r.control)
              && (forall fd :: fd in p.fds <==> fd in old(p.fds) || fd in Arrived(l, r))
              && Arrived(l, r) !! old(p.fds).Keys
              && (forall fd :: fd in old(p.fds) ==> p.fds[fd] == old(p.fds)[fd])
              && p.fds[r.control.payload[0]] == m.files[0]
  {
    if m.files == [] {
      return Plain(m.data);
    }
    var slots := l.room / 4;
    var k := if |m.files| < slots then |m.files| else slots;
    var payload: seq<int> := [];
    while |payload| < k
      invariant |payload| <= k && p.Valid()
      invariant forall i :: 0 <= i < |payload| ==> payload[i] in p.fds && payload[i] !in old(p.fds)
      invariant forall i, j :: 0 <= i < j < |payload| ==> payload[i] != payload[j]
      invariant forall fd :: fd in p.fds <==> fd in old(p.fds) || fd in payload
      invariant forall fd :: fd in old(p.fds) ==> p.fds[fd] == old(p.fds)[fd]
      invariant |payload| > 0 ==> p.fds[payload[0]] == m.files[0]
    {
      var fd := p.Open(m.files[|payload|], true);
      payload := payload + [fd];
    }
    var rest := seq(slots - k, _ => 0);
    var len := l.hdr + 4 * if overclaims then |m.files| else k;
    r := Message(m.data, Control(SOL_SOCKET, SCM_RIGHTS, len, payload + rest));
    assert Covered(l, len) == k;
    assert forall i :: 0 <= i < k ==> r.control.payload[i] == payload[i];
  }

  /** Receiving any message, however many files its sender attached and whatever length the system claims: the receiver
      ends up with exactly one new descriptor, for the first file, or (nonzero data byte, or no file) with its table as
      it was. */
  method Receive(p: Process, l: Layout, m: InFlight, overclaims: bool) returns (fd: int)
    requires p.Valid() && Sane(l)
    modifies p
    ensures p.Valid()
    ensures m.data == 0 && m.files != [] ==> fd !in old(p.fds) && p.fds == old(p.fds)[fd := m.files[0]]
    ensures m.data != 0 || m.files == [] ==> fd == -1 && p.fds == old(p.fds)
  {
    var r := Deliver(p, l, m, overclaims);
    ghost var mid := p.fds;
    fd := RecvFd(p, l, true, r);
    if m.files != [] {
      assert r.control.payload[0] in Arrived(l, r);
      ghost var expected := if m.data == 0 then old(p.fds)[fd := m.files[0]] else old(p.fds);
      assert forall x :: x in p.fds <==> x in expected;
      assert forall x :: x in p.fds ==> p.fds[x] == expected[x];
    }
  }

  /** send_fd and recv_fd together deliver the sender's open file. */
  method Pass(sender: Process, receiver: Process, l: Layout, fd: int, overclaims: bool) returns (got: int)
    requires sender.Valid() && receiver.Valid() && sender != receiver && Sane(l) && fd in sender.fds
    modifies receiver
    ensures receiver.Valid() && got !in old(receiver.fds)
    ensures receiver.fds == old(receiver.fds)[got := sender.fds[fd]]
  {
    var sent, m := SendFd(sender, true, true, fd);
    got := Receive(receiver, l, m.value, overclaims);
  }
}
