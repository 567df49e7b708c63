/** The relay as objects with handler slots: the callbacks of src/n2t/tcpsession.cpp and
    src/n2t/socket.cpp, each proved to be a step of `RelaySteps`. The proxy socket and
    lwIP are the logs of what was handed to them. */
module Relay {
  import opened Seq32
  import opened RelaySteps

  class Session {
    var status: Status
    const target: seq<byte>         // address and port of the request
    var recv: bool                  // Socket: a receive handler is waiting
    var sent: bool                  // Socket: a sent handler is waiting
    var recv_buf: seq<byte>
    var pending_len: int
    var pcb_freed: bool
    var connecting: bool            // operations on the proxy socket
    var reading: bool
    var writing: bool
    var toProxy: seq<byte>          // handed to async_write
    var toClient: seq<byte>         // accepted by tcp_write
    ghost var fromClient: seq<byte>
    ghost var fromProxy: seq<byte>
    ghost var acked: int
    ghost var refused: nat

    ghost function View(): State
      reads this
    {
      State(status, target, recv, recv_buf, sent, pending_len, pcb_freed, reading, writing, connecting,
            toProxy, toClient, fromClient, fromProxy, acked, refused)
    }

    /** start: the connection to the proxy is being made. */
    constructor (target: seq<byte>)
      ensures View() == Initial(target) && Inv(View())
    {
      status, this.target := HANDSHAKE, target;
      recv, sent, recv_buf, pending_len, pcb_freed := false, false, [], 0, false;
      connecting, reading, writing := true, false, false;
      toProxy, toClient, fromClient, fromProxy, acked, refused := [], [], [], [], 0, 0;
      new;
      InitialInv(target);
    }

    // ----- the socket wrapper ------------------------------------------------------------------

    /** Socket::cancel */
    method Cancel()
      modifies this`recv, this`sent
      ensures View() == old(View()).(armed := false, sent := false)
    {
      recv, sent := false, false;
    }

    /** Closing the proxy socket. */
    method CloseProxy()
      modifies this`reading, this`writing, this`connecting
      ensures View() == old(View()).(reading := false, writing := false, connecting := false)
    {
      reading, writing, connecting := false, false, false;
    }

    method DestroySession()
      modifies this
      ensures View() == Destroy(old(View()))
    {
      status := DESTROY;
      Cancel();
      CloseProxy();
    }

    /** in_async_read with Socket::async_recv */
    method InRead()
      modifies this
      ensures View() == InAsyncRead(old(View()))
      ensures TurnsToClient(old(View())) ==> Inv(View())
    {
      if TurnsToClient(View()) {
        InAsyncReadKeeps(View());
      }
      hide TurnsToClient, Inv;
      if pcb_freed {
        DestroySession();
        return;
      }
      if |recv_buf| == 0 {
        recv := true;
      } else {
        var tmp := recv_buf;
        recv_buf := [];
        InReceived(tmp);
      }
    }

    /** in_async_write with Socket::async_send; writeOk is the result of tcp_write. */
    method InWrite(data: seq<byte>, writeOk: bool)
      modifies this
      ensures View() == InAsyncWrite(old(View()), data, writeOk)
    {
      if pcb_freed {
        DestroySession();
        return;
      }
      pending_len := pending_len + |data|;
      sent := true;
      if writeOk {
        toClient := toClient + data;
      } else {
        refused := refused + |data|;
      }
    }

    method OutRead()
      modifies this`reading
      ensures View() == OutAsyncRead(old(View()))
    {
      reading := true;
    }

    method OutWrite(data: seq<byte>)
      modifies this`writing, this`toProxy
      ensures View() == OutAsyncWrite(old(View()), data)
    {
      writing := true;
      toProxy := toProxy + data;
    }

    method InReceived(data: seq<byte>)
      modifies this`writing, this`toProxy
      ensures View() == InRecv(old(View()), data)
    {
      if status == FORWARD {
        OutWrite(data);
      }
    }

    // ----- the callbacks -------------------------------------------------------------------------

    /** The connection to the proxy was made, or failed. */
    method OnConnected(ok: bool)
      requires Inv(View()) && Enabled(View(), Connected(ok))
      modifies this
      ensures View() == Step(old(View()), Connected(ok)) && Inv(View())
    {
      StepKeeps(View(), Connected(ok));
      hide Inv;
      if !ok {
        DestroySession();
        return;
      }
      connecting := false;
      OutWrite(GREETING);
    }

    /** A write to the proxy is complete. */
    method OnProxyWritten(ok: bool)
      requires Inv(View()) && Enabled(View(), ProxyWritten(ok))
      modifies this
      ensures View() == Step(old(View()), ProxyWritten(ok)) && Inv(View())
    {
      StepKeeps(View(), ProxyWritten(ok));
      hide Inv, InAsyncRead;
      if !ok {
        DestroySession();
        return;
      }
      writing := false;
      match status
      case HANDSHAKE => OutRead();
      case REQUEST => OutRead();
      case FORWARD => InRead();
      case DESTROY =>
    }

    /** Bytes from the proxy. */
    method OnProxyRead(ok: bool, data: seq<byte>, writeOk: bool)
      requires Inv(View()) && Enabled(View(), ProxyRead(ok, data, writeOk))
      modifies this
      ensures View() == Step(old(View()), ProxyRead(ok, data, writeOk)) && Inv(View())
    {
      StepKeeps(View(), ProxyRead(ok, data, writeOk));
      hide Inv, OutRecv;
      if !ok {
        DestroySession();
        return;
      }
      reading := false;
      OutReceived(data, writeOk);
    }

    /** out_recv */
    method OutReceived(data: seq<byte>, writeOk: bool)
      modifies this
      ensures View() == OutRecv(old(View()), data, writeOk)
    {
      hide Inv, InAsyncRead, InAsyncWrite, TurnsToClient;
      match status
      case HANDSHAKE =>
        if data != CHOICE {
          DestroySession();
          return;
        }
        status := REQUEST;
        OutWrite(CONNECT + target);
      case REQUEST =>
        if |data| <= 3 || data[..3] != REPLY_OK {
          DestroySession();
          return;
        }
        status := FORWARD;
        InRead();
        OutRead();
      case FORWARD =>
        fromProxy := fromProxy + data;
        InWrite(data, writeOk);
      case DESTROY =>
    }

    /** The receive callback with data: a waiting handler gets it, or it is kept. */
    method OnClientData(data: seq<byte>)
      requires Inv(View()) && Enabled(View(), ClientData(data))
      modifies this
      ensures View() == Step(old(View()), ClientData(data)) && Inv(View())
    {
      StepKeeps(View(), ClientData(data));
      hide Inv;
      fromClient := fromClient + data;
      if recv {
        recv := false;
        InReceived(data);
      } else {
        recv_buf := recv_buf + data;
      }
    }

    /** The receive callback without data: the client has closed. */
    method OnClientEof()
      requires Inv(View()) && Enabled(View(), ClientEof)
      modifies this
      ensures View() == Step(old(View()), ClientEof) && Inv(View())
    {
      StepKeeps(View(), ClientEof);
      pcb_freed := true;
    }

    /** The sent callback: when everything is acknowledged, the waiting handler runs. */
    method OnClientSent(len: nat)
      requires Inv(View()) && Enabled(View(), ClientSent(len))
      modifies this
      ensures View() == Step(old(View()), ClientSent(len)) && Inv(View())
    {
      StepKeeps(View(), ClientSent(len));
      hide Inv;
      pending_len := pending_len - len;
      acked := acked + len;
      if pending_len == 0 {
        if pcb_freed {
          DestroySession();
          return;
        }
        RunSentHandler();
      }
    }

    /** The waiting sent handler: while forwarding it reads from the proxy again. */
    method RunSentHandler()
      modifies this`sent, this`reading
      ensures var t := old(View()).(sent := false);
        View() == if t.status == FORWARD then OutAsyncRead(t) else t
    {
      sent := false;
      if status == FORWARD {
        OutRead();
      }
    }

    /** The error callback. */
    method OnClientErr()
      requires Inv(View()) && Enabled(View(), ClientErr)
      modifies this
      ensures View() == Step(old(View()), ClientErr) && Inv(View())
    {
      StepKeeps(View(), ClientErr);
      pcb_freed := true;
      DestroySession();
    }
  }

  /** The sent callback never finds the handler slot empty when it is about to run it. */
  lemma SentHandlerSet(s: State, len: nat)
    requires Inv(s) && Enabled(s, ClientSent(len)) && s.pendingLen - len == 0
    ensures s.status == FORWARD && s.sent
  {
  }
}
