/** Values that may be missing, and the annotation keys that several components read. */
module Annotations {

  datatype Option<T> = None | Some(value: T)

  const HASH := "specialresource.openshift.io/hash"
  const VENDOR := "specialresource.openshift.io/driver-container-vendor"
  const STATE := "specialresource.openshift.io/state"
  const AFFINE := "specialresource.openshift.io/kernel-affine"
}
