/** How a page may be accessed. */
module Pages {
  datatype Prot = NoAccess | ReadPage | ReadWritePage
}
