// The sizes in which memory is handed out.
module Paging {
  const PGSIZE := 4096

  // The pages that size bytes take.
  function PagesOf(size: nat): nat { (size + PGSIZE - 1) / PGSIZE }
}
