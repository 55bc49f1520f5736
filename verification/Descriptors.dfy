/** The descriptors of the helper, as values: the sockets and one master for each of its objects. */
module Descriptors {
  import opened Os
  import opened Ptytty
  import opened Registry
  import opened Wrappers

  /** The fields of one ptytty_unix object. */
  datatype Fields = Fields(serial: nat, pty: int, tty: int, name: Option<string>, cmdPid: int, loginShell: bool)

  type Objects = map<Address, Fields>

  /** Between two commands the open descriptors are the sockets and one master per object, no master twice. */
  ghost predicate DescriptorsOk(v: Objects, fds: map<int, File>, sockets: map<int, File>) {
    && (forall fd :: fd in sockets ==> fd >= 0 && fd in fds && fds[fd] == sockets[fd])
    && (forall a :: a in v ==> HoldsMaster(v[a], fds, sockets))
    && (forall a, b :: a in v && b in v && a != b ==> v[a].pty != v[b].pty)
    && (forall fd :: fd in fds ==> fd in sockets || exists a :: a in v && v[a].pty == fd)
  }

  predicate HoldsMaster(o: Fields, fds: map<int, File>, sockets: map<int, File>) {
    && o.pty >= 0 && o.pty in fds && o.pty !in sockets && o.tty == -1
    && o.name.Some? && Paired(fds[o.pty], o.name.value)
  }

  lemma DescriptorsOpened(v: Objects, fds: map<int, File>, sockets: map<int, File>, id: Address, o: Fields, file: File)
    requires DescriptorsOk(v, fds, sockets) && id !in v
    requires o.pty >= 0 && o.pty !in fds && o.tty == -1 && o.name.Some? && Paired(file, o.name.value)
    ensures DescriptorsOk(v[id := o], fds[o.pty := file], sockets)
  {
    hide Paired;
    var w, g := v[id := o], fds[o.pty := file];
    forall fd | fd in g ensures fd in sockets || exists a :: a in w && w[a].pty == fd {
      if fd == o.pty {
        assert w[id].pty == fd;
      } else if fd !in sockets {
        var a :| a in v && v[a].pty == fd;
        assert w[a].pty == fd;
      }
    }
  }

  lemma DescriptorsClosed(v: Objects, fds: map<int, File>, sockets: map<int, File>, id: Address)
    requires DescriptorsOk(v, fds, sockets) && id in v
    ensures DescriptorsOk(v - {id}, fds - {v[id].pty, -1}, sockets)
  {
    hide Paired;
    var w, g := v - {id}, fds - {v[id].pty, -1};
    forall fd | fd in g ensures fd in sockets || exists a :: a in w && w[a].pty == fd {
      if fd !in sockets {
        var a :| a in v && v[a].pty == fd;
        assert a in w && w[a].pty == fd;
      }
    }
  }

  lemma DescriptorsSame(v: Objects, fds: map<int, File>, sockets: map<int, File>, id: Address, o: Fields)
    requires DescriptorsOk(v, fds, sockets) && id in v
    requires o.pty == v[id].pty && o.tty == v[id].tty && o.name == v[id].name
    ensures DescriptorsOk(v[id := o], fds, sockets)
  {
    hide Paired;
    var w := v[id := o];
    forall fd | fd in fds ensures fd in sockets || exists a :: a in w && w[a].pty == fd {
      if fd !in sockets {
        var a :| a in v && v[a].pty == fd;
        assert w[a].pty == fd;
      }
    }
  }
}
