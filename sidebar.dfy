/** The sidebar store of src/stores/sidebar.ts: one visibility flag. */
module Sidebar {

  class SidebarStore {
    /** The store's only state. */
    var isSidebarVisible: bool

    /** The sidebar starts hidden. */
    constructor ()
      ensures !isSidebarVisible
    {
      isSidebarVisible := false;
    }

    /** `toggleSidebar`: negate the flag. */
    method ToggleSidebar()
      modifies this
      ensures isSidebarVisible == !old(isSidebarVisible)
    {
      isSidebarVisible := !isSidebarVisible;
    }
  }

  /** Two toggles in a row restore the original value. */
  method ToggleTwice(store: SidebarStore)
    modifies store
    ensures store.isSidebarVisible == old(store.isSidebarVisible)
  {
    store.ToggleSidebar();
    store.ToggleSidebar();
  }
}
