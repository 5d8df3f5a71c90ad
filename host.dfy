/**
 * The host operations the reconciler calls (the `hostConfig` module). The
 * host is not modelled: each call hands out a fresh handle where it creates
 * something and is recorded, with its arguments in the order the caller
 * passes them, in the host's log.
 */
module HostConfig {
  import opened ReactTypes

  /** A value handed to the host: an instance or text handle, a container, or `null`. */
  datatype HostValue = NullValue | Handle(handle: nat) | ContainerValue(id: nat)

  datatype HostOp =
    | CreateInstance(handle: nat, elementType: Value, props: Value)
    | CreateTextInstance(handle: nat, content: Value)
    /** `appendInitialChild(parent, child)`. */
    | AppendInitialChild(parent: HostValue, child: HostValue)
    /** `appendChildToContainer(parent, child)`, which is `appendInitialChild`. */
    | AppendChildToContainer(parent: HostValue, child: HostValue)

  class Host {
    var log: seq<HostOp>
    var nextHandle: nat

    constructor ()
      ensures log == [] && nextHandle == 0
    {
      log := [];
      nextHandle := 0;
    }

    /** `createInstance(type, props)`. */
    method CreateInstanceOp(elementType: Value, props: Value) returns (handle: nat)
      modifies this
      ensures handle == old(nextHandle) && nextHandle == handle + 1
      ensures log == old(log) + [CreateInstance(handle, elementType, props)]
    {
      handle := nextHandle;
      nextHandle := nextHandle + 1;
      log := log + [CreateInstance(handle, elementType, props)];
    }

    /** `createTextInstance(content)`. */
    method CreateTextInstanceOp(content: Value) returns (handle: nat)
      modifies this
      ensures handle == old(nextHandle) && nextHandle == handle + 1
      ensures log == old(log) + [CreateTextInstance(handle, content)]
    {
      handle := nextHandle;
      nextHandle := nextHandle + 1;
      log := log + [CreateTextInstance(handle, content)];
    }

    method AppendInitialChildOp(parent: HostValue, child: HostValue)
      modifies this
      ensures nextHandle == old(nextHandle)
      ensures log == old(log) + [AppendInitialChild(parent, child)]
    {
      log := log + [AppendInitialChild(parent, child)];
    }

    method AppendChildToContainerOp(parent: HostValue, child: HostValue)
      modifies this
      ensures nextHandle == old(nextHandle)
      ensures log == old(log) + [AppendChildToContainer(parent, child)]
    {
      log := log + [AppendChildToContainer(parent, child)];
    }
  }
}
