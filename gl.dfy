/** The graphics device, reduced to the calls the slot pool makes and an
    ordered log of what each call did.  Buffer and vertex-array names are
    handed out from counters, so every created object has a fresh name. */
module Gl {

  /** How a full upload is hinted to the device (the `drawMode` of a store). */
  datatype Usage = StreamDraw | StaticDraw

  /** One device call, as recorded in the log. */
  datatype Event =
    | BufferCreated(buf: nat)
    | DataUploaded(buf: nat, data: seq<real>, usage: Usage)
    | SubDataUploaded(buf: nat, data: seq<real>)
    | BufferDeleted(buf: nat)
    | VertexArrayCreated(vao: nat)
    | VertexArrayDeleted(vao: nat)
    | InstancesDrawn(vao: nat, first: nat, count: nat, instances: nat)

  /** The four vertices of the shared unit quad, drawn as a triangle strip. */
  const QuadVertexCount: nat := 4

  class Device {
    var log: seq<Event>
    var nextBuffer: nat
    var nextVertexArray: nat

    constructor ()
      ensures log == [] && nextBuffer == 0 && nextVertexArray == 0
    {
      log, nextBuffer, nextVertexArray := [], 0, 0;
    }

    method CreateBuffer() returns (buf: nat)
      modifies this
      ensures buf == old(nextBuffer) && nextBuffer == buf + 1
      ensures nextVertexArray == old(nextVertexArray)
      ensures log == old(log) + [BufferCreated(buf)]
    {
      buf := nextBuffer;
      nextBuffer := nextBuffer + 1;
      log := log + [BufferCreated(buf)];
    }

    method BufferData(buf: nat, data: seq<real>, usage: Usage)
      modifies this`log
      ensures log == old(log) + [DataUploaded(buf, data, usage)]
    {
      log := log + [DataUploaded(buf, data, usage)];
    }

    method BufferSubData(buf: nat, data: seq<real>)
      modifies this`log
      ensures log == old(log) + [SubDataUploaded(buf, data)]
    {
      log := log + [SubDataUploaded(buf, data)];
    }

    method DeleteBuffer(buf: nat)
      modifies this`log
      ensures log == old(log) + [BufferDeleted(buf)]
    {
      log := log + [BufferDeleted(buf)];
    }

    method CreateVertexArray() returns (vao: nat)
      modifies this
      ensures vao == old(nextVertexArray) && nextVertexArray == vao + 1
      ensures nextBuffer == old(nextBuffer)
      ensures log == old(log) + [VertexArrayCreated(vao)]
    {
      vao := nextVertexArray;
      nextVertexArray := nextVertexArray + 1;
      log := log + [VertexArrayCreated(vao)];
    }

    method DeleteVertexArray(vao: nat)
      modifies this`log
      ensures log == old(log) + [VertexArrayDeleted(vao)]
    {
      log := log + [VertexArrayDeleted(vao)];
    }

    method DrawArraysInstanced(vao: nat, first: nat, count: nat, instances: nat)
      modifies this`log
      ensures log == old(log) + [InstancesDrawn(vao, first, count, instances)]
    {
      log := log + [InstancesDrawn(vao, first, count, instances)];
    }
  }
}
