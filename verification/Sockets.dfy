/** The two byte strings a CTCPSocket owns. What the operating system does with
    them is the environment of every model here. */
module Sockets {
  import opened Bytes

  class TcpSocket {
    var recvBuffer: seq<byte>
    var sendBuffer: seq<byte>
    var connected: bool

    constructor ()
      ensures recvBuffer == [] && sendBuffer == [] && connected
    {
      recvBuffer, sendBuffer, connected := [], [], true;
    }

    method PutBytes(bytes: seq<byte>)
      modifies this`sendBuffer
      ensures sendBuffer == old(sendBuffer) + bytes
    {
      sendBuffer := sendBuffer + bytes;
    }

    method Disconnect()
      modifies this`connected
      ensures !connected
    {
      connected := false;
    }
  }
}
