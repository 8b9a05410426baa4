/** Socket addresses, reduced to what a path needs of them. */
module Net {

  /** A remote endpoint. The address family is the only datum path state
      inspects; the host and port only tell two remotes apart. */
  datatype SocketAddr = V4(ip4: bv32, port: bv16) | V6(ip6: bv128, port: bv16)
}
