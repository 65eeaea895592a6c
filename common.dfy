/** Types shared by the runtime-side device model and the kernel-side sysfs model. */
module Common {

  /** One byte of an xclbin image or of a kernel buffer. */
  newtype byte = x: int | 0 <= x < 256

  /** The exceptions the runtime throws, one constructor per distinct message. */
  datatype Error =
    | XclbinIdMismatch            // "xclbin id mismatch"
    | NoSuchSection               // "no such xclbin section"
    | InvalidSlotSize(size: nat)  // "invalid slot size '<size>' in xrt.ini"
    | NoXmlMetadata               // "No xml metadata in xclbin"
    | UnsupportedAny(typeName: string)  // "Unsupported 'any' typeid: '<name>'"

  /** A value, or the exception thrown instead of returning it. */
  datatype Result<T> = Ok(value: T) | Err(error: Error)

  datatype Option<T> = None | Some(value: T)
}
