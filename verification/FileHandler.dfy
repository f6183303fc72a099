/** The assembled buffer and the stored previous hash (src/service/file/FileHandler.cpp). */
module FileHandling {
  import opened Bytes
  import opened PacketChain
  import opened PacketPlan

  datatype StatusCode =
    | OK
    | PACKAGE_HASH_NOT_VALID
    | PREVIOUS_PACKAGE_HASH_NOT_VALID
    | FILE_HASH_NOT_VALID
    | FILE_HANDLING_ERROR

  /** What the file-system helpers make of a name: they live in the SDK. */
  datatype Paths = Paths(compose: (string, string) -> string, absolute: string -> string)

  /** A file creation that was attempted, and whether it succeeded. */
  datatype Write = Write(path: string, content: Bytes, done: bool)

  class FileHandler {
    const digest: Digest
    const paths: Paths

    var currentPacketData: Bytes
    var previousPacketHash: Bytes

    /** The packets accepted since the last clear. */
    ghost var accepted: seq<Packet>

    ghost predicate Valid()
      reads this
    {
      && currentPacketData == Payload(accepted)
      && (if accepted == [] then previousPacketHash == []
          else previousPacketHash == accepted[|accepted| - 1].hash && |previousPacketHash| == HASH_LENGTH)
    }

    constructor (digest: Digest, paths: Paths)
      ensures Valid() && accepted == []
      ensures this.digest == digest && this.paths == paths
    {
      this.digest, this.paths := digest, paths;
      currentPacketData, previousPacketHash := [], [];
      accepted := [];
    }

    method Clear()
      modifies this
      ensures Valid() && accepted == []
    {
      currentPacketData, previousPacketHash := [], [];
      accepted := [];
    }

    method HandleData(packet: Packet) returns (status: StatusCode)
      requires Valid()
      modifies this
      ensures Valid()
      ensures status == OK <==> Extends(digest, old(accepted), packet)
      ensures status == PACKAGE_HASH_NOT_VALID <==> packet.hash != digest.sha(packet.data)
      ensures status == OK <==>
                && packet.hash == digest.sha(packet.data)
                && packet.previousHash == (if old(accepted) == [] then digest.noPrevious
                                           else old(accepted)[|old(accepted)| - 1].hash)
      ensures status in {OK, PACKAGE_HASH_NOT_VALID, PREVIOUS_PACKAGE_HASH_NOT_VALID}
      ensures accepted == old(accepted) + (if status == OK then [packet] else [])
      ensures status != OK ==> unchanged(this)
      ensures Chained(digest, old(accepted)) ==> Chained(digest, accepted)
      ensures previousPacketHash == [] <==> accepted == []
    {
      if !Intact(digest, packet) {
        return PACKAGE_HASH_NOT_VALID;
      }
      if previousPacketHash == [] {
        if packet.previousHash != digest.noPrevious {
          return PREVIOUS_PACKAGE_HASH_NOT_VALID;
        }
      } else {
        if packet.previousHash != previousPacketHash {
          return PREVIOUS_PACKAGE_HASH_NOT_VALID;
        }
      }
      if Chained(digest, accepted) {
        ChainGrows(digest, accepted, packet);
      }
      Append(packet);
      return OK;
    }

    method Append(packet: Packet)
      requires Valid() && |packet.hash| == HASH_LENGTH
      modifies this
      ensures Valid() && accepted == old(accepted) + [packet] && previousPacketHash == packet.hash
    {
      PayloadGrows(accepted, packet);
      currentPacketData := currentPacketData + packet.data;
      previousPacketHash := packet.hash;
      accepted := accepted + [packet];
    }

    method ValidateFile(fileHash: Bytes) returns (status: StatusCode)
      requires Valid()
      ensures status == if digest.sha(Payload(accepted)) == fileHash then OK else FILE_HASH_NOT_VALID
    {
      if fileHash == digest.sha(currentPacketData) {
        return OK;
      }
      return FILE_HASH_NOT_VALID;
    }

    /** `writable` is what the file system makes of the attempt. */
    method SaveFile(name: string, directory: string, writable: bool) returns (status: StatusCode, write: Write)
      requires Valid()
      ensures status == if writable then OK else FILE_HANDLING_ERROR
      ensures write == Write(paths.compose(name, directory), Payload(accepted), writable)
    {
      var path := paths.compose(name, directory);
      write := Write(path, currentPacketData, writable);
      status := if writable then OK else FILE_HANDLING_ERROR;
    }
  }
}
