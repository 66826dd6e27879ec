/** The frames of the FTP tunnel. */
module FtpFrames {
  import opened Bytes

  const TYPE_DATA: byte := 0x01
  const TYPE_CLOSE: byte := 0x03
  const FRAME_HEADER_SIZE := 13
  const MAX_FRAME_DATA := 32 * 1024

  datatype Frame = Frame(connId: u32, typ: byte, seqNo: u32, data: seq<byte>)
}
