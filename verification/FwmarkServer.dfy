/** FwmarkServer::processClient() (server/FwmarkServer.cpp), field by field. */
module FwmarkServers {
  import opened Fwmarks
  import opened Rules
  import opened Controllers
  import opened Sockets

  /** A client's socket, with its SO_MARK. */
  class Socket {
    var mark: Mark

    constructor ()
      ensures mark == NO_MARK
    {
      mark := NO_MARK;
    }
  }

  class FwmarkServer {
    const cfg: Config

    constructor (cfg: Config)
      ensures this.cfg == cfg
    {
      this.cfg := cfg;
    }

    /** `c0` to `c3` are the controller's states when it is asked the first to the fourth time. */
    method ProcessClient(socket: Socket, uid: nat, cmd: SocketCommand,
                         c0: Controller, c1: Controller, c2: Controller, c3: Controller) returns (ret: int)
      modifies socket
      ensures Reply(ret, socket.mark) == Process(cfg, old(socket.mark), uid, cmd, c0, c1, c2, c3)
    {
      hide PermissionForUser, NetworkForConnect, NetworkForUser, CheckAccess, CanProtect, IsVirtual;
      var fwmark := socket.mark;
      var permission := PermissionForUser(c0, uid, cfg.firstAppUid);
      match cmd {
        case OnAccept =>
          permission := permission.Or(fwmark.permission);
        case OnConnect =>
          if !fwmark.explicitlySelected {
            if !fwmark.protectedFromVpn {
              fwmark := fwmark.(netId := NetIdBits(NetworkForConnect(c1, uid)));
            } else if !IsVirtual(c1, fwmark.netId) {
              fwmark := fwmark.(netId := NetIdBits(c2.defaultNetId));
            }
          }
        case SelectNetwork(netId) =>
          fwmark := fwmark.(netId := NetIdBits(netId));
          if netId == NETID_UNSET {
            fwmark := fwmark.(explicitlySelected := false);
            fwmark := fwmark.(protectedFromVpn := false);
            permission := PERMISSION_NONE;
          } else {
            ret := CheckAccess(c1, uid, netId, cfg.firstAppUid, cfg.stray);
            if ret != 0 {
              return;
            }
            fwmark := fwmark.(explicitlySelected := true);
            fwmark := fwmark.(protectedFromVpn := CanProtect(c2, uid, cfg.firstAppUid));
          }
        case ProtectFromVpn =>
          if !CanProtect(c1, uid, cfg.firstAppUid) {
            return -EPERM;
          }
          if !fwmark.explicitlySelected && IsVirtual(c2, fwmark.netId) {
            fwmark := fwmark.(netId := NetIdBits(c3.defaultNetId));
          }
          fwmark := fwmark.(protectedFromVpn := true);
          permission := permission.Or(fwmark.permission);
        case SelectForUser(user) =>
          if !permission.Includes(PERMISSION_SYSTEM) {
            return -EPERM;
          }
          fwmark := fwmark.(netId := NetIdBits(NetworkForUser(c1, user)));
          fwmark := fwmark.(protectedFromVpn := true);
        case Unknown =>
          return -EPROTO;
      }
      fwmark := fwmark.(permission := permission);
      socket.mark := fwmark;
      return 0;
    }
  }
}
